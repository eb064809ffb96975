// The Base64 encoder and decoder of wifi_config.c (section 4 of RFC 4648), on bytes.
module Base64 {
  type octet = bv8

  const PAD: octet := 0x3d   // '='

  /** base64_table */
  function Letter(v: octet): (c: octet)
    requires v < 64
  {
    if v < 26 then 0x41 + v            // A-Z
    else if v < 52 then 0x61 + (v - 26)   // a-z
    else if v < 62 then 0x30 + (v - 52)   // 0-9
    else if v == 62 then 0x2b             // +
    else 0x2f                             // /
  }

  /** base64_decode_table: 0 for everything outside the alphabet. */
  function Value(c: octet): (v: octet)
    ensures v < 64
  {
    if 0x41 <= c <= 0x5a then c - 0x41
    else if 0x61 <= c <= 0x7a then c - 0x61 + 26
    else if 0x30 <= c <= 0x39 then c - 0x30 + 52
    else if c == 0x2b then 62
    else if c == 0x2f then 63
    else 0
  }

  lemma LetterValue(v: octet)
    requires v < 64
    ensures Value(Letter(v)) == v && Letter(v) != PAD && Letter(v) < 0x80 && Letter(v) != 0
  {
  }

  /** Table 1 of RFC 4648: the upper-case letters, the lower-case ones, the digits, each in order, then + and /. */
  lemma Alphabet(v: octet)
    requires v < 64
    ensures Letter(0) == 0x41 && Letter(26) == 0x61 && Letter(52) == 0x30 && Letter(62) == 0x2b && Letter(63) == 0x2f
    ensures v != 0 && v != 26 && v != 52 && v < 62 ==> Letter(v) == Letter(v - 1) + 1
  {
  }

  // ---- groups

  function First(a: octet): (v: octet)
    ensures v < 64
  {
    a >> 2
  }

  function Second(a: octet, b: octet): (v: octet)
    ensures v < 64
  {
    ((a & 0x03) << 4) | (b >> 4)
  }

  function Third(b: octet, c: octet): (v: octet)
    ensures v < 64
  {
    ((b & 0x0f) << 2) | (c >> 6)
  }

  function Fourth(c: octet): (v: octet)
    ensures v < 64
  {
    c & 0x3f
  }

  function Group(a: octet, b: octet, c: octet): seq<octet> {
    [Letter(First(a)), Letter(Second(a, b)), Letter(Third(b, c)), Letter(Fourth(c))]
  }

  /** What the encoder writes before the terminating NUL. */
  function Encode(src: seq<octet>): seq<octet> {
    if src == [] then []
    else if |src| == 1 then [Letter(First(src[0])), Letter(Second(src[0], 0)), PAD, PAD]
    else if |src| == 2 then [Letter(First(src[0])), Letter(Second(src[0], src[1])), Letter(Third(src[1], 0)), PAD]
    else Group(src[0], src[1], src[2]) + Encode(src[3..])
  }

  function Sextet(c: octet): octet {
    if c == PAD then 0 else Value(c)
  }

  function Triple(a: octet, b: octet, c: octet, d: octet): bv32 {
    ((Sextet(a) as bv32) << 18) + ((Sextet(b) as bv32) << 12) + ((Sextet(c) as bv32) << 6) + (Sextet(d) as bv32)
  }

  function Octet(triple: bv32, shift: bv32): octet
    requires shift <= 16
  {
    ((triple >> shift) & 0xff) as octet
  }

  function Octets(triple: bv32): (r: seq<octet>)
    ensures |r| == 3
  {
    [Octet(triple, 16), Octet(triple, 8), Octet(triple, 0)]
  }

  /** Three bytes for every four characters. */
  function Octetted(data: seq<octet>): (r: seq<octet>)
    requires |data| % 4 == 0
    ensures |r| == |data| / 4 * 3
  {
    if data == [] then [] else Octets(Triple(data[0], data[1], data[2], data[3])) + Octetted(data[4..])
  }

  function OutLength(data: seq<octet>): (n: nat)
    requires |data| % 4 == 0 && data != []
  {
    |data| / 4 * 3 - (if data[|data| - 1] == PAD then 1 else 0) - (if data[|data| - 2] == PAD then 1 else 0)
  }

  function Decode(data: seq<octet>): seq<octet>
    requires |data| % 4 == 0 && data != []
  {
    Octetted(data)[..OutLength(data)]
  }

  /** The four digits of a group, to base 64, are the number that its three bytes are to base 256. */
  lemma GroupNumber(a: octet, b: octet, c: octet)
    ensures ((First(a) as bv32) << 18) | ((Second(a, b) as bv32) << 12) | ((Third(b, c) as bv32) << 6) | (Fourth(c) as bv32)
         == ((a as bv32) << 16) | ((b as bv32) << 8) | (c as bv32)
  {
  }

  // ---- round trip

  lemma GroupRoundTrip(a: octet, b: octet, c: octet)
    ensures var g := Group(a, b, c); Octets(Triple(g[0], g[1], g[2], g[3])) == [a, b, c]
  {
    hide Letter, Value;
    LetterValue(First(a));
    LetterValue(Second(a, b));
    LetterValue(Third(b, c));
    LetterValue(Fourth(c));
  }

  lemma OneRoundTrip(a: octet)
    ensures Octets(Triple(Letter(First(a)), Letter(Second(a, 0)), PAD, PAD))[0] == a
  {
    hide Letter, Value;
    LetterValue(First(a));
    LetterValue(Second(a, 0));
  }

  lemma TwoRoundTrip(a: octet, b: octet)
    ensures Octets(Triple(Letter(First(a)), Letter(Second(a, b)), Letter(Third(b, 0)), PAD))[..2] == [a, b]
  {
    hide Letter, Value;
    LetterValue(First(a));
    LetterValue(Second(a, b));
    LetterValue(Third(b, 0));
  }

  /** What the encoder makes of its input, one group off the front or the rest. */
  lemma EncodeOne(src: seq<octet>)
    ensures |src| == 0 ==> Encode(src) == []
    ensures |src| == 1 ==> Encode(src) == [Letter(First(src[0])), Letter(Second(src[0], 0)), PAD, PAD]
    ensures |src| == 2 ==> Encode(src) == [Letter(First(src[0])), Letter(Second(src[0], src[1])), Letter(Third(src[1], 0)), PAD]
    ensures |src| >= 3 ==> Encode(src) == Group(src[0], src[1], src[2]) + Encode(src[3..])
  {
  }

  /** The encoding has four characters for every three bytes begun, and pads only its end. */
  lemma {:induction false} EncodedShape(src: seq<octet>)
    ensures |Encode(src)| == (|src| + 2) / 3 * 4
    ensures src != [] ==>
      var e := Encode(src);
      && (e[|e| - 1] == PAD <==> |src| % 3 != 0)
      && (e[|e| - 2] == PAD <==> |src| % 3 == 1)
  {
    hide Letter, First, Second, Third, Fourth, Encode;
    EncodeOne(src);
    if |src| >= 3 {
      EncodedShape(src[3..]);
      LetterValue(Fourth(src[2]));
      LetterValue(Third(src[1], src[2]));
    } else if |src| == 2 {
      LetterValue(Third(src[1], 0));
    }
  }

  lemma OctettedFront(g: seq<octet>, rest: seq<octet>)
    requires |g| == 4 && |rest| % 4 == 0
    ensures Octetted(g + rest) == Octets(Triple(g[0], g[1], g[2], g[3])) + Octetted(rest)
    ensures Octetted(g) == Octets(Triple(g[0], g[1], g[2], g[3]))
  {
    hide Triple, Octets;
    assert (g + rest)[4..] == rest && g[4..] == [];
    assert Octetted([]) == [];
  }

  lemma {:induction false} OctetsOfEncoding(src: seq<octet>)
    ensures |Encode(src)| % 4 == 0 && |Octetted(Encode(src))| >= |src| && Octetted(Encode(src))[..|src|] == src
  {
    hide Letter, First, Second, Third, Fourth, Triple, Octets, Octetted, Encode;
    EncodedShape(src);
    EncodeOne(src);
    var e := Encode(src);
    if |src| >= 3 {
      EncodedShape(src[3..]);
      OctetsOfEncoding(src[3..]);
      GroupRoundTrip(src[0], src[1], src[2]);
      OctettedFront(Group(src[0], src[1], src[2]), Encode(src[3..]));
      assert src == [src[0], src[1], src[2]] + src[3..];
    } else if |src| == 2 {
      TwoRoundTrip(src[0], src[1]);
      OctettedFront(e, []);
    } else if |src| == 1 {
      OneRoundTrip(src[0]);
      OctettedFront(e, []);
    }
  }

  /** Decoding the encoding of any non-empty byte string gives it back. */
  lemma RoundTrip(src: seq<octet>)
    requires src != []
    ensures |Encode(src)| % 4 == 0 && Encode(src) != [] && Decode(Encode(src)) == src
  {
    hide Encode, Octetted;
    EncodedShape(src);
    OctetsOfEncoding(src);
    assert OutLength(Encode(src)) == |src|;
  }

  lemma Thirds(k: nat, r: nat)
    requires r < 3
    ensures (3 * k + r + 2) / 3 == if r == 0 then k else k + 1
    ensures (3 * k + r) * 4 / 3 == 4 * k + r
  {
  }

  /** The buffer write_cfg allocates holds the encoding and its NUL, with no byte to spare exactly for lengths of one more than a multiple of three. */
  lemma BufferFits(src: seq<octet>)
    ensures |Encode(src)| + 1 <= |src| * 4 / 3 + 4
    ensures |Encode(src)| + 1 == |src| * 4 / 3 + 4 <==> |src| % 3 == 1
  {
    hide Encode;
    EncodedShape(src);
    var k, r := |src| / 3, |src| % 3;
    assert |src| == 3 * k + r;
    Thirds(k, r);
  }

  // ---- which texts are encodings

  /** c belongs to the alphabet. */
  predicate IsLetter(c: octet) {
    0x41 <= c <= 0x5a || 0x61 <= c <= 0x7a || 0x30 <= c <= 0x39 || c == 0x2b || c == 0x2f
  }

  lemma ValueLetter(c: octet)
    requires IsLetter(c)
    ensures Letter(Value(c)) == c && c != PAD
  {
  }

  /** Groups of four letters; the last may end in one or two pads, and then its unused bits are zero. */
  predicate WellFormed(data: seq<octet>) {
    if data == [] then true
    else if |data| < 4 then false
    else if |data| == 4 && data[3] == PAD then
      IsLetter(data[0]) && IsLetter(data[1]) &&
      if data[2] == PAD then Value(data[1]) & 0x0f == 0 else IsLetter(data[2]) && Value(data[2]) & 0x03 == 0
    else IsLetter(data[0]) && IsLetter(data[1]) && IsLetter(data[2]) && IsLetter(data[3]) && WellFormed(data[4..])
  }

  lemma LetterIsLetter(v: octet)
    requires v < 64
    ensures IsLetter(Letter(v)) && Value(Letter(v)) == v && Letter(v) != PAD
  {
  }

  lemma LowBits(a: octet)
    ensures Second(a, 0) & 0x0f == 0 && Third(a, 0) & 0x03 == 0
  {
  }

  lemma {:induction false} EncodingsAreWellFormed(src: seq<octet>)
    ensures WellFormed(Encode(src))
  {
    hide Letter, First, Second, Third, Fourth, Value, IsLetter;
    if |src| == 1 {
      LetterIsLetter(First(src[0]));
      LetterIsLetter(Second(src[0], 0));
      LowBits(src[0]);
    } else if |src| == 2 {
      LetterIsLetter(First(src[0]));
      LetterIsLetter(Second(src[0], src[1]));
      LetterIsLetter(Third(src[1], 0));
      LowBits(src[1]);
    } else if |src| >= 3 {
      LetterIsLetter(First(src[0]));
      LetterIsLetter(Second(src[0], src[1]));
      LetterIsLetter(Third(src[1], src[2]));
      LetterIsLetter(Fourth(src[2]));
      EncodingsAreWellFormed(src[3..]);
      assert Encode(src)[4..] == Encode(src[3..]);
    }
  }

  /** The bytes that four sextets spell. */
  lemma OctetsAre(p: octet, q: octet, r: octet, t: octet, w: bv32)
    requires p < 64 && q < 64 && r < 64 && t < 64
    requires w == ((p as bv32) << 18) + ((q as bv32) << 12) + ((r as bv32) << 6) + (t as bv32)
    ensures Octet(w, 16) == (p << 2) | (q >> 4)
    ensures Octet(w, 8) == (q << 4) | (r >> 2)
    ensures Octet(w, 0) == (r << 6) | t
  {
  }

  lemma SextetsAre(p: octet, q: octet, r: octet, t: octet, a: octet, b: octet, c: octet)
    requires p < 64 && q < 64 && r < 64 && t < 64
    requires a == (p << 2) | (q >> 4) && b == (q << 4) | (r >> 2) && c == (r << 6) | t
    ensures First(a) == p && Second(a, b) == q && Third(b, c) == r && Fourth(c) == t
    ensures q & 0x0f == 0 ==> Second(a, 0) == q
    ensures r & 0x03 == 0 ==> Third(b, 0) == r
  {
  }

  lemma GroupDecodes(a: octet, b: octet, c: octet, d: octet)
    ensures var o := Octets(Triple(a, b, c, d));
      && First(o[0]) == Sextet(a) && Second(o[0], o[1]) == Sextet(b) && Third(o[1], o[2]) == Sextet(c) && Fourth(o[2]) == Sextet(d)
      && (Sextet(b) & 0x0f == 0 ==> Second(o[0], 0) == Sextet(b)) && (Sextet(c) & 0x03 == 0 ==> Third(o[1], 0) == Sextet(c))
  {
    hide First, Second, Third, Fourth, Octet, Triple, Sextet;
    SextetSmall(a);
    SextetSmall(b);
    SextetSmall(c);
    SextetSmall(d);
    var w := Triple(a, b, c, d);
    TripleIs(a, b, c, d);
    OctetsAre(Sextet(a), Sextet(b), Sextet(c), Sextet(d), w);
    SextetsAre(Sextet(a), Sextet(b), Sextet(c), Sextet(d), Octet(w, 16), Octet(w, 8), Octet(w, 0));
  }

  lemma SextetSmall(c: octet)
    ensures Sextet(c) < 64
  {
  }

  lemma TripleIs(a: octet, b: octet, c: octet, d: octet)
    ensures Triple(a, b, c, d) == ((Sextet(a) as bv32) << 18) + ((Sextet(b) as bv32) << 12) + ((Sextet(c) as bv32) << 6) + (Sextet(d) as bv32)
  {
  }

  lemma DecodeGroup(data: seq<octet>)
    requires |data| % 4 == 0 && |data| > 4
    ensures Decode(data) == Octets(Triple(data[0], data[1], data[2], data[3])) + Decode(data[4..])
  {
    hide Triple, Octets;
    assert OutLength(data) == 3 + OutLength(data[4..]);
  }

  lemma LastGroup(data: seq<octet>)
    requires |data| == 4
    ensures var o := Octets(Triple(data[0], data[1], data[2], data[3])); Decode(data) == o[..OutLength(data)]
  {
    hide Triple, Octets;
    assert data[4..] == [];
  }

  lemma {:induction false} WellFormedLength(data: seq<octet>)
    requires WellFormed(data)
    ensures |data| % 4 == 0
  {
    if |data| >= 4 && !(|data| == 4 && data[3] == PAD) {
      WellFormedLength(data[4..]);
    }
  }

  lemma {:induction false} WellFormedDecodes(data: seq<octet>)
    requires WellFormed(data) && data != [] && |data| % 4 == 0
    ensures Encode(Decode(data)) == data
  {
    hide Letter, First, Second, Third, Fourth, Value, IsLetter, Triple, Octets, Decode;
    GroupDecodes(data[0], data[1], data[2], data[3]);
    var o := Octets(Triple(data[0], data[1], data[2], data[3]));
    ValueLetter(data[0]);
    ValueLetter(data[1]);
    if |data| == 4 {
      LastGroup(data);
      if data[3] == PAD {
        if data[2] == PAD {
          assert Decode(data) == [o[0]];
        } else {
          ValueLetter(data[2]);
          assert Decode(data) == [o[0], o[1]];
        }
      } else {
        ValueLetter(data[2]);
        ValueLetter(data[3]);
        assert Decode(data) == [o[0], o[1], o[2]];
        assert Decode(data)[3..] == [];
      }
    } else {
      ValueLetter(data[2]);
      ValueLetter(data[3]);
      DecodeGroup(data);
      WellFormedLength(data);
      WellFormedDecodes(data[4..]);
      assert Decode(data)[3..] == Decode(data[4..]);
      assert data == data[..4] + data[4..];
    }
  }

  /** Re-encoding what was decoded gives the text back exactly for well-formed texts. */
  lemma DecodeThenEncode(data: seq<octet>)
    requires data != [] && |data| % 4 == 0
    ensures Encode(Decode(data)) == data <==> WellFormed(data)
  {
    hide Encode, Decode, WellFormed;
    EncodingsAreWellFormed(Decode(data));
    if WellFormed(data) {
      WellFormedDecodes(data);
    }
  }

  // ---- the two routines

  /** Four characters at pos. */
  method PutGroup(out: array<octet>, pos: nat, a: octet, b: octet, c: octet, d: octet)
    requires pos + 4 <= out.Length
    modifies out
    ensures out[..pos + 4] == old(out[..pos]) + [a, b, c, d]
    ensures forall x :: pos + 4 <= x < out.Length ==> out[x] == old(out[x])
  {
    out[pos] := a;
    out[pos + 1] := b;
    out[pos + 2] := c;
    out[pos + 3] := d;
  }

  lemma GroupIs(a: octet, b: octet, c: octet)
    ensures Group(a, b, c) == [Letter(First(a)), Letter(Second(a, b)), Letter(Third(b, c)), Letter(Fourth(c))]
  {
  }

  /** The loop of the encoder takes one group off the front. */
  lemma NextGroup(src: seq<octet>, i: nat, done: seq<octet>)
    requires i + 3 <= |src|
    ensures done + Encode(src[i..]) == done + Group(src[i], src[i + 1], src[i + 2]) + Encode(src[i + 3..])
  {
    hide Group;
    assert src[i..][3..] == src[i + 3..];
  }

  /** The end of the encoder: a padded group for one or two bytes that are left. */
  method PutRest(out: array<octet>, pos: nat, rest: seq<octet>) returns (end: nat)
    requires |rest| < 3 && pos + |Encode(rest)| <= out.Length
    modifies out
    ensures end == pos + |Encode(rest)| && out[pos..end] == Encode(rest)
    ensures forall x :: 0 <= x < pos || end <= x < out.Length ==> out[x] == old(out[x])
  {
    hide Letter, First, Second, Third, Fourth, Encode;
    EncodeOne(rest);
    end := pos;
    if |rest| == 1 {
      PutGroup(out, pos, Letter(First(rest[0])), Letter(Second(rest[0], 0)), PAD, PAD);
      end := pos + 4;
    } else if |rest| == 2 {
      PutGroup(out, pos, Letter(First(rest[0])), Letter(Second(rest[0], rest[1])), Letter(Third(rest[1], 0)), PAD);
      end := pos + 4;
    }
  }

  /** The loop of the encoder: all full groups. */
  method PutGroups(src: seq<octet>, out: array<octet>) returns (pos: nat, i: nat)
    requires |Encode(src)| < out.Length
    modifies out
    ensures i <= |src| < i + 3 && pos < out.Length && out[..pos] + Encode(src[i..]) == Encode(src)
    ensures forall x :: pos <= x < out.Length ==> out[x] == old(out[x])
  {
    hide Letter, First, Second, Third, Fourth, Encode, Group;
    pos, i := 0, 0;
    assert src[0..] == src;
    while |src| - i >= 3
      invariant i <= |src| && pos < out.Length
      invariant out[..pos] + Encode(src[i..]) == Encode(src)
      invariant forall x :: pos <= x < out.Length ==> out[x] == old(out[x])
    {
      ghost var done := out[..pos];
      NextGroup(src, i, done);
      GroupIs(src[i], src[i + 1], src[i + 2]);
      PutGroup(out, pos, Letter(First(src[i])), Letter(Second(src[i], src[i + 1])),
               Letter(Third(src[i + 1], src[i + 2])), Letter(Fourth(src[i + 2])));
      assert out[..pos + 4] == done + Group(src[i], src[i + 1], src[i + 2]);
      pos := pos + 4;
      i := i + 3;
    }
  }

  /** str_base64_encode_len; out is as large as write_cfg makes it. */
  method EncodeLen(src: seq<octet>, out: array<octet>)
    requires out.Length >= |src| * 4 / 3 + 4
    modifies out
    ensures var n := |Encode(src)|;
      && n == (|src| + 2) / 3 * 4 && n < out.Length
      && out[..n] == Encode(src) && out[n] == 0
      && forall x :: n < x < out.Length ==> out[x] == old(out[x])
  {
    hide Encode;
    EncodedShape(src);
    BufferFits(src);
    var pos, i := PutGroups(src, out);
    ghost var done := out[..pos];
    pos := PutRest(out, pos, src[i..]);
    assert out[..pos] == done + Encode(src[i..]);
    out[pos] := 0;
  }

  lemma {:induction false} OctettedAt(data: seq<octet>, k: nat)
    requires |data| % 4 == 0 && 4 * k < |data|
    ensures Octetted(data)[3 * k..3 * k + 3] == Octets(Triple(data[4 * k], data[4 * k + 1], data[4 * k + 2], data[4 * k + 3]))
  {
    hide Triple, Octets;
    var first := Octets(Triple(data[0], data[1], data[2], data[3]));
    var rest := data[4..];
    assert Octetted(data) == first + Octetted(rest);
    hide Octetted;
    if k == 0 {
      assert (first + Octetted(rest))[..3] == first;
    } else {
      OctettedAt(rest, k - 1);
      Shifted(first, Octetted(rest), k);
      assert forall x :: 4 <= x < |data| ==> rest[x - 4] == data[x];
    }
  }

  lemma Shifted(o: seq<octet>, rest: seq<octet>, k: nat)
    requires |o| == 3 && k >= 1 && 3 * k <= |rest|
    ensures (o + rest)[3 * k..3 * k + 3] == rest[3 * k - 3..3 * k]
  {
  }

  /** Up to three bytes at j, but none from n on. */
  method PutOctets(decoded: array<octet>, j: nat, n: nat, o: seq<octet>) returns (j': nat)
    requires |o| == 3 && j <= n <= decoded.Length
    modifies decoded
    ensures j' == if j + 3 < n then j + 3 else n
    ensures decoded[..j'] == old(decoded[..j]) + o[..j' - j]
    ensures forall x :: j' <= x < decoded.Length ==> decoded[x] == old(decoded[x])
  {
    j' := j;
    if j' < n { decoded[j'] := o[0]; j' := j' + 1; }
    if j' < n { decoded[j'] := o[1]; j' := j' + 1; }
    if j' < n { decoded[j'] := o[2]; j' := j' + 1; }
  }

  lemma Prefixes(all: seq<octet>, j: nat, m: nat)
    requires j <= m <= |all| && m <= j + 3 && j + 3 <= |all|
    ensures all[..j] + all[j..j + 3][..m - j] == all[..m]
  {
  }

  /** The loop of the decoder. */
  method PutAll(data: seq<octet>, decoded: array<octet>, n: nat)
    requires data != [] && |data| % 4 == 0 && n == OutLength(data) <= decoded.Length
    modifies decoded
    ensures decoded[..n] == Decode(data) && forall x :: n <= x < decoded.Length ==> decoded[x] == old(decoded[x])
  {
    hide Triple, Octets, Octetted;
    ghost var all, k: nat := Octetted(data), 0;
    var i, j: nat := 0, 0;
    while i < |data|
      invariant i == 4 * k && i <= |data| && j == (if 3 * k < n then 3 * k else n)
      invariant decoded[..j] == all[..j]
      invariant forall x :: j <= x < decoded.Length ==> decoded[x] == old(decoded[x])
    {
      OctettedAt(data, k);
      var triple := Triple(data[i], data[i + 1], data[i + 2], data[i + 3]);
      i := i + 4;
      j := PutOctets(decoded, j, n, Octets(triple));
      Prefixes(all, 3 * k, j);
      k := k + 1;
    }
  }

  /** The length that str_base64_decode reports: three bytes for four characters, less one for each pad among the last two
      bytes up to the end of the text, which for an empty text are the two in front of it. */
  function Reported(front: seq<octet>, data: seq<octet>): int
    requires |front| == 2 && |data| % 4 == 0
  {
    var memory := front + data;
    |data| / 4 * 3 - (if memory[|data| + 1] == PAD then 1 else 0) - (if memory[|data|] == PAD then 1 else 0)
  }

  /** It is the number of bytes decoded, unless the text is empty and a pad lies in front of it. */
  lemma ReportedExactly(front: seq<octet>, data: seq<octet>)
    requires |front| == 2 && |data| % 4 == 0
    ensures Reported(front, data) == (if data == [] then 0 else |Decode(data)|) <==> data != [] || PAD !in front
  {
  }

  /** A witness: -1 bytes are reported for an empty text behind a pad. */
  lemma EmptyBehindPad()
    ensures Reported([65, PAD], []) == -1
  {
    assert [65, PAD] + [] == [65, PAD];
  }

  /** str_base64_decode; 0 is its error result. front holds the two bytes in front of the text, which the routine reads if the
      text is empty. Plain char is unsigned, as on ARM. */
  method DecodeTo(front: seq<octet>, data: seq<octet>, decoded: array<octet>) returns (n: int)
    requires |front| == 2 && (data != [] && |data| % 4 == 0 ==> decoded.Length >= OutLength(data))
    modifies decoded
    ensures |data| % 4 != 0 ==> n == 0 && decoded[..] == old(decoded[..])
    ensures |data| % 4 == 0 ==> n == Reported(front, data)
    ensures data == [] ==> n <= 0 && decoded[..] == old(decoded[..]) && (n == 0 <==> PAD !in front)
    ensures data != [] && |data| % 4 == 0 ==>
      n == OutLength(data) && decoded[..n] == Decode(data) && forall x :: n <= x < decoded.Length ==> decoded[x] == old(decoded[x])
  {
    hide Octetted;
    if |data| % 4 != 0 {
      return 0;
    }
    var memory := front + data;
    n := |data| / 4 * 3;
    if memory[|front| + |data| - 1] == PAD { n := n - 1; }
    if memory[|front| + |data| - 2] == PAD { n := n - 1; }
    if data != [] {
      PutAll(data, decoded, n);
    }
  }
}
