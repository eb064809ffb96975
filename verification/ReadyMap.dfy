// The ready bitmap of scheduler.c: one word for up to 32 priorities, or a word over a
// table of bytes for up to 256, and the search for the lowest bit in kservice.c.
module ReadyMap {

  // ---- __rt_ffs

  /** Column 0 of __lowest_bit_bitmap, row by row. */
  function FirstColumn(row: bv32): bv32 {
    match row
    case 0 => 0 case 1 => 4 case 2 => 5 case 3 => 4 case 4 => 6 case 5 => 4 case 6 => 5 case 7 => 4
    case 8 => 7 case 9 => 4 case 10 => 5 case 11 => 4 case 12 => 6 case 13 => 4 case 14 => 5 case _ => 4
  }

  /** Columns 1 to 15, the same in every row. */
  function OtherColumns(column: bv32): bv32 {
    match column
    case 1 => 0 case 2 => 1 case 3 => 0 case 4 => 2 case 5 => 0 case 6 => 1 case 7 => 0
    case 8 => 3 case 9 => 0 case 10 => 1 case 11 => 0 case 12 => 2 case 13 => 0 case 14 => 1 case _ => 0
  }

  function LowestBit(b: bv32): (r: bv32)
    requires b < 0x100
    ensures r < 8
  {
    if b & 0xf == 0 then FirstColumn(b >> 4) else OtherColumns(b & 0xf)
  }

  lemma LowestOfByte(b: bv32)
    requires 0 < b < 0x100
    ensures b & (1 << LowestBit(b)) != 0 && b & ((1 << LowestBit(b)) - 1) == 0
  {
  }

  predicate Bit(w: bv32, i: bv32)
    requires i < 32
  {
    (w >> i) & 1 == 1
  }

  function Ffs(w: bv32): (r: bv32) {
    if w == 0 then 0
    else if w & 0xff != 0 then LowestBit(w & 0xff) + 1
    else if w & 0xff00 != 0 then LowestBit((w & 0xff00) >> 8) + 9
    else if w & 0xff0000 != 0 then LowestBit((w & 0xff0000) >> 16) + 17
    else LowestBit((w & 0xff000000) >> 24) + 25
  }

  lemma ByteInWord(w: bv32, s: bv32, b: bv32, r: bv32)
    requires s == 0 || s == 8 || s == 16 || s == 24
    requires 0 < b < 0x100 && b == (w >> s) & 0xff && w & ((1 << s) - 1) == 0
    requires r < 8 && b & (1 << r) != 0 && b & ((1 << r) - 1) == 0
    ensures (w >> (r + s)) & 1 == 1 && w & ((1 << (r + s)) - 1) == 0
  {
  }

  lemma NothingBelow(w: bv32, k: bv32, j: bv32)
    requires j < k < 32 && w & ((1 << k) - 1) == 0
    ensures !Bit(w, j)
  {
  }

  ghost predicate IsLowest(w: bv32, k: bv32) {
    k < 32 && Bit(w, k) && forall j: bv32 :: j < k ==> !Bit(w, j)
  }

  /** The lowest bit of a word whose lowest non-zero byte b sits at bit s. */
  lemma LowestAt(w: bv32, s: bv32, b: bv32, r: bv32)
    requires (s == 0 || s == 8 || s == 16 || s == 24) && w & ((1 << s) - 1) == 0 && b != 0 && b == (w >> s) & 0xff
    requires r == LowestBit(b) + s + 1
    ensures 1 <= r <= 32 && IsLowest(w, r - 1)
  {
    hide LowestBit, Bit;
    LowestOfByte(b);
    ByteInWord(w, s, b, LowestBit(b));
    LowBit(w, LowestBit(b) + s);
    assert r - 1 == LowestBit(b) + s;
  }

  lemma Bytes(w: bv32)
    ensures w >> 0 == w && w & ((1 << 0) - 1) == 0
    ensures (w >> 8) & 0xff == (w & 0xff00) >> 8 && (w >> 16) & 0xff == (w & 0xff0000) >> 16
    ensures (w >> 24) & 0xff == (w & 0xff000000) >> 24
    ensures w & 0xff == 0 ==> w & ((1 << 8) - 1) == 0
    ensures w & 0xff == 0 && w & 0xff00 == 0 ==> w & ((1 << 16) - 1) == 0
    ensures w & 0xff == 0 && w & 0xff00 == 0 && w & 0xff0000 == 0 ==> w & ((1 << 24) - 1) == 0
    ensures (w & 0xff00) >> 8 == 0 <==> w & 0xff00 == 0
    ensures (w & 0xff0000) >> 16 == 0 <==> w & 0xff0000 == 0
    ensures w != 0 && w & 0xff == 0 && w & 0xff00 == 0 && w & 0xff0000 == 0 ==> (w >> 24) & 0xff != 0
  {
  }

  /** __rt_ffs answers 0 exactly for 0, and otherwise one more than the lowest set bit. */
  lemma FfsFindsLowest(w: bv32)
    ensures w == 0 <==> Ffs(w) == 0
    ensures w != 0 ==> 1 <= Ffs(w) <= 32 && IsLowest(w, Ffs(w) - 1)
  {
    hide LowestBit, IsLowest;
    Bytes(w);
    if w != 0 {
      if w & 0xff != 0 {
        LowestAt(w, 0, w & 0xff, Ffs(w));
      } else if w & 0xff00 != 0 {
        LowestAt(w, 8, (w & 0xff00) >> 8, Ffs(w));
      } else if w & 0xff0000 != 0 {
        LowestAt(w, 16, (w & 0xff0000) >> 16, Ffs(w));
      } else {
        LowestAt(w, 24, (w & 0xff000000) >> 24, Ffs(w));
      }
    }
  }

  lemma LowBit(w: bv32, k: bv32)
    requires k < 32 && (w >> k) & 1 == 1 && w & ((1 << k) - 1) == 0
    ensures Bit(w, k) && forall j: bv32 :: j < k ==> !Bit(w, j)
  {
    forall j: bv32 | j < k
      ensures !Bit(w, j)
    {
      NothingBelow(w, k, j);
    }
  }

  // ---- the bitmap

  /** rt_thread_ready_priority_group, and rt_thread_ready_table in a build with more than 32 priorities. */
  datatype Map = Narrow(group: bv32) | Wide(group: bv32, table: seq<bv8>)

  /** number, number_mask and high_mask of a thread. */
  datatype Place = Place(number: bv8, numberMask: bv32, highMask: bv8)

  function WordMask(i: bv8): bv32
    requires i < 32
  {
    1 << i
  }

  function ByteMask(i: bv8): bv8
    requires i < 8
  {
    1 << i
  }

  function Number(p: bv8): (n: bv8)
    ensures n < 32
  {
    p >> 3
  }

  function Column(p: bv8): (c: bv8)
    ensures c < 8
  {
    p & 7
  }

  function PlaceOf(wide: bool, p: bv8): (at: Place)
    requires wide || p < 32
    ensures at.number < 32
  {
    if wide then Place(Number(p), WordMask(Number(p)), ByteMask(Column(p))) else Place(0, WordMask(p), 0)
  }

  predicate Shaped(m: Map) {
    m.Wide? ==> |m.table| == 32
  }

  function Row(table: seq<bv8>, n: bv8): bv8
    requires |table| == 32 && n < 32
  {
    Small(n);
    table[n as nat]
  }

  function SetRow(table: seq<bv8>, n: bv8, byte: bv8): (t: seq<bv8>)
    requires |table| == 32 && n < 32
    ensures |t| == 32
    ensures forall k: bv8 :: k < 32 ==> Row(t, k) == if k == n then byte else Row(table, k)
  {
    Small(n);
    var t := table[n as nat := byte];
    assert forall k: bv8 :: k < 32 ==> Row(t, k) == if k == n then byte else Row(table, k) by {
      forall k: bv8 | k < 32
        ensures Row(t, k) == if k == n then byte else Row(table, k)
      {
        Small(k);
        Apart(k, n);
      }
    }
    t
  }

  lemma Small(n: bv8)
    requires n < 32
    ensures (n as nat) < 32
  {
  }

  lemma Apart(k: bv8, n: bv8)
    ensures (k as nat) == (n as nat) <==> k == n
  {
  }

  function With(w: bv32, mask: bv32): bv32 {
    w | mask
  }

  function Less(w: bv32, mask: bv32): bv32 {
    w & !mask
  }

  function ByteWith(b: bv8, mask: bv8): bv8 {
    b | mask
  }

  function ByteLess(b: bv8, mask: bv8): bv8 {
    b & !mask
  }

  /** The bitmap after rt_schedule_insert_thread. */
  function Mark(m: Map, at: Place): Map
    requires Shaped(m) && at.number < 32
  {
    match m
    case Narrow(group) => Narrow(With(group, at.numberMask))
    case Wide(group, table) =>
      Wide(With(group, at.numberMask), SetRow(table, at.number, ByteWith(Row(table, at.number), at.highMask)))
  }

  /** The bitmap after rt_schedule_remove_thread has emptied a list. */
  function Clear(m: Map, at: Place): Map
    requires Shaped(m) && at.number < 32
  {
    match m
    case Narrow(group) => Narrow(Less(group, at.numberMask))
    case Wide(group, table) =>
      var byte := ByteLess(Row(table, at.number), at.highMask);
      Wide(if byte == 0 then Less(group, at.numberMask) else group, SetRow(table, at.number, byte))
  }

  predicate BitOfByte(b: bv8, i: bv8)
    requires i < 8
  {
    (b >> i) & 1 == 1
  }

  ghost predicate Holds(m: Map, p: bv8)
    requires Shaped(m)
  {
    match m
    case Narrow(group) => p < 32 && Bit(group, p as bv32)
    case Wide(_, table) => BitOfByte(Row(table, Number(p)), Column(p))
  }

  /** The group word summarises the table. */
  ghost predicate Summary(group: bv32, table: seq<bv8>)
    requires |table| == 32
  {
    forall n: bv8 :: n < 32 ==> (Bit(group, n as bv32) <==> Row(table, n) != 0)
  }

  ghost predicate Sound(m: Map) {
    Shaped(m) && (m.Wide? ==> Summary(m.group, m.table))
  }

  // ---- single bits

  lemma SetBit(w: bv32, i: bv8, j: bv8)
    requires i < 32 && j < 32
    ensures Bit(With(w, WordMask(i)), j as bv32) <==> Bit(w, j as bv32) || j == i
  {
  }

  lemma ClearBit(w: bv32, i: bv8, j: bv8)
    requires i < 32 && j < 32
    ensures Bit(Less(w, WordMask(i)), j as bv32) <==> Bit(w, j as bv32) && j != i
  {
  }

  lemma SetInByte(b: bv8, i: bv8, j: bv8)
    requires i < 8 && j < 8
    ensures ByteWith(b, ByteMask(i)) != 0
    ensures BitOfByte(ByteWith(b, ByteMask(i)), j) <==> BitOfByte(b, j) || j == i
  {
  }

  lemma ClearInByte(b: bv8, i: bv8, j: bv8)
    requires i < 8 && j < 8
    ensures BitOfByte(ByteLess(b, ByteMask(i)), j) <==> BitOfByte(b, j) && j != i
  {
  }

  lemma Digits(p: bv8, q: bv8)
    ensures p == q <==> Number(p) == Number(q) && Column(p) == Column(q)
    ensures p < q <==> Number(p) < Number(q) || (Number(p) == Number(q) && Column(p) < Column(q))
  {
  }

  // ---- what the operations do to the set of marked priorities

  lemma MarkNarrow(group: bv32, p: bv8, q: bv8)
    requires p < 32
    ensures Sound(Mark(Narrow(group), PlaceOf(false, p)))
    ensures Holds(Mark(Narrow(group), PlaceOf(false, p)), q) <==> Holds(Narrow(group), q) || q == p
  {
    hide Bit, WordMask, With, Less;
    if q < 32 { SetBit(group, p, q); }
  }

  lemma MarkWideSound(group: bv32, table: seq<bv8>, p: bv8)
    requires |table| == 32 && Summary(group, table)
    ensures Sound(Mark(Wide(group, table), PlaceOf(true, p)))
  {
    hide Bit, BitOfByte, Row, SetRow, WordMask, ByteMask, With, Less, ByteWith, ByteLess, Summary, Number, Column;
    var byte := ByteWith(Row(table, Number(p)), ByteMask(Column(p)));
    assert byte != 0 by { SetInByte(Row(table, Number(p)), Column(p), Column(p)); }
    SummaryMarked(group, table, Number(p), byte);
  }

  lemma MarkWide(group: bv32, table: seq<bv8>, p: bv8, q: bv8)
    requires |table| == 32 && Summary(group, table)
    ensures Holds(Mark(Wide(group, table), PlaceOf(true, p)), q) <==> Holds(Wide(group, table), q) || q == p
  {
    hide Bit, BitOfByte, Row, SetRow, WordMask, ByteMask, With, Less, ByteWith, ByteLess, Summary, Number, Column;
    Digits(p, q);
    SetInByte(Row(table, Number(p)), Column(p), Column(q));
  }

  /** An insertion marks exactly the thread's priority. */
  lemma MarkAdds(m: Map, p: bv8, q: bv8)
    requires Sound(m) && (m.Wide? || p < 32)
    ensures Sound(Mark(m, PlaceOf(m.Wide?, p)))
    ensures Holds(Mark(m, PlaceOf(m.Wide?, p)), q) <==> Holds(m, q) || q == p
  {
    hide Mark, Holds, Summary, PlaceOf;
    match m
    case Narrow(group) => MarkNarrow(group, p, q);
    case Wide(group, table) => MarkWideSound(group, table, p); MarkWide(group, table, p, q);
  }

  lemma SummaryMarked(group: bv32, table: seq<bv8>, i: bv8, byte: bv8)
    requires |table| == 32 && i < 32 && Summary(group, table) && byte != 0
    ensures Summary(With(group, WordMask(i)), SetRow(table, i, byte))
  {
    hide Bit, Row, SetRow, WordMask, With;
    forall n: bv8 | n < 32
      ensures Bit(With(group, WordMask(i)), n as bv32) <==> Row(SetRow(table, i, byte), n) != 0
    {
      SetBit(group, i, n);
    }
  }

  lemma ClearNarrow(group: bv32, p: bv8, q: bv8)
    requires p < 32
    ensures Sound(Clear(Narrow(group), PlaceOf(false, p)))
    ensures Holds(Clear(Narrow(group), PlaceOf(false, p)), q) <==> Holds(Narrow(group), q) && q != p
  {
    hide Bit, WordMask, With, Less;
    if q < 32 { ClearBit(group, p, q); }
  }

  lemma ClearWideSound(group: bv32, table: seq<bv8>, p: bv8)
    requires |table| == 32 && Summary(group, table)
    ensures Sound(Clear(Wide(group, table), PlaceOf(true, p)))
  {
    hide Bit, BitOfByte, Row, SetRow, WordMask, ByteMask, With, Less, ByteWith, ByteLess, Summary, Number, Column;
    SummaryCleared(group, table, Number(p), ByteLess(Row(table, Number(p)), ByteMask(Column(p))), Column(p));
  }

  lemma ClearWide(group: bv32, table: seq<bv8>, p: bv8, q: bv8)
    requires |table| == 32 && Summary(group, table)
    ensures Holds(Clear(Wide(group, table), PlaceOf(true, p)), q) <==> Holds(Wide(group, table), q) && q != p
  {
    hide Bit, BitOfByte, Row, SetRow, WordMask, ByteMask, With, Less, ByteWith, ByteLess, Summary, Number, Column;
    Digits(p, q);
    ClearInByte(Row(table, Number(p)), Column(p), Column(q));
  }

  /** Emptying a list unmarks exactly its priority. */
  lemma ClearRemoves(m: Map, p: bv8, q: bv8)
    requires Sound(m) && (m.Wide? || p < 32)
    ensures Sound(Clear(m, PlaceOf(m.Wide?, p)))
    ensures Holds(Clear(m, PlaceOf(m.Wide?, p)), q) <==> Holds(m, q) && q != p
  {
    hide Clear, Holds, Summary, PlaceOf;
    match m
    case Narrow(group) => ClearNarrow(group, p, q);
    case Wide(group, table) => ClearWideSound(group, table, p); ClearWide(group, table, p, q);
  }

  lemma SummaryCleared(group: bv32, table: seq<bv8>, i: bv8, byte: bv8, b: bv8)
    requires |table| == 32 && i < 32 && Summary(group, table) && b < 8 && byte == ByteLess(Row(table, i), ByteMask(b))
    ensures Summary(if byte == 0 then Less(group, WordMask(i)) else group, SetRow(table, i, byte))
  {
    hide Bit, Row, SetRow, WordMask, Less;
    var group' := if byte == 0 then Less(group, WordMask(i)) else group;
    assert byte != 0 ==> Row(table, i) != 0;
    forall n: bv8 | n < 32
      ensures Bit(group', n as bv32) <==> Row(SetRow(table, i, byte), n) != 0
    {
      ClearBit(group, i, n);
    }
  }

  // ---- the lookup

  lemma Narrowing(w: bv32)
    requires w < 32
    ensures (w as bv8) < 32 && (w as bv8) as bv32 == w
  {
  }

  function Lowest(w: bv32): (k: bv8)
    requires w != 0
    ensures k < 32
  {
    hide *;
    FfsFindsLowest(w);
    Narrowing(Ffs(w) - 1);
    (Ffs(w) - 1) as bv8
  }

  function Join(number: bv8, column: bv8): bv8 {
    (number << 3) + column
  }

  /** _get_highest_priority_thread, as far as the priority goes. */
  function Highest(m: Map): bv8
    requires Shaped(m) && m.group != 0
  {
    match m
    case Narrow(group) => Lowest(group)
    case Wide(group, table) =>
      var number := Lowest(group);
      var byte := Row(table, number) as bv32;
      Join(number, if byte == 0 then 0xff else Lowest(byte))
  }

  lemma LowestIsLeast(w: bv32, j: bv8)
    requires w != 0
    ensures Bit(w, Lowest(w) as bv32)
    ensures j < 32 && Bit(w, j as bv32) ==> Lowest(w) <= j
  {
    FfsFindsLowest(w);
    hide Ffs, Bit;
    Narrowing(Ffs(w) - 1);
  }

  lemma Compose(n: bv8, c: bv8)
    requires n < 32 && c < 8
    ensures Number(Join(n, c)) == n && Column(Join(n, c)) == c
  {
  }

  lemma BitsOfByte(b: bv8, j: bv8)
    requires j < 32
    ensures b != 0 <==> b as bv32 != 0
    ensures Bit(b as bv32, j as bv32) <==> j < 8 && BitOfByte(b, j)
  {
  }

  lemma NoBit(j: bv8)
    requires j < 32
    ensures !Bit(0, j as bv32)
  {
  }

  lemma NoBitOfByte(j: bv8)
    requires j < 8
    ensures !BitOfByte(0, j)
  {
  }

  lemma SummaryAt(group: bv32, table: seq<bv8>, n: bv8)
    requires |table| == 32 && Summary(group, table) && n < 32
    ensures Bit(group, n as bv32) <==> Row(table, n) != 0
  {
  }

  lemma ByteLookup(byte: bv8, j: bv8)
    requires byte != 0 && j < 8
    ensures byte as bv32 != 0
    ensures Lowest(byte as bv32) < 8 && BitOfByte(byte, Lowest(byte as bv32))
    ensures BitOfByte(byte, j) ==> Lowest(byte as bv32) <= j
  {
    hide Bit, BitOfByte, Lowest;
    BitsOfByte(byte, j);
    LowestIsLeast(byte as bv32, j);
    BitsOfByte(byte, Lowest(byte as bv32));
  }

  lemma WideHighest(group: bv32, table: seq<bv8>)
    requires |table| == 32 && Summary(group, table) && group != 0
    ensures var n := Lowest(group); var byte := Row(table, n);
      && byte != 0 && byte as bv32 != 0 && Lowest(byte as bv32) < 8 && BitOfByte(byte, Lowest(byte as bv32))
      && Highest(Wide(group, table)) == Join(n, Lowest(byte as bv32))
  {
    hide Bit, BitOfByte, Row, Summary, Number, Column, Lowest, Join;
    LowestIsLeast(group, 0);
    SummaryAt(group, table, Lowest(group));
    ByteLookup(Row(table, Lowest(group)), 0);
  }

  lemma WideLeast(group: bv32, table: seq<bv8>, q: bv8, h: bv8)
    requires |table| == 32 && Summary(group, table) && group != 0
    requires BitOfByte(Row(table, Number(q)), Column(q))
    requires Row(table, Lowest(group)) as bv32 != 0
    requires Number(h) == Lowest(group) && Column(h) == Lowest(Row(table, Lowest(group)) as bv32)
    ensures h <= q
  {
    hide Bit, BitOfByte, Row, Summary, Number, Column, Lowest, Join;
    assert Row(table, Number(q)) != 0 by { NoBitOfByte(Column(q)); }
    assert Number(h) <= Number(q) by {
      SummaryAt(group, table, Number(q));
      LowestIsLeast(group, Number(q));
    }
    if Number(q) == Number(h) {
      assert Column(h) <= Column(q) by { ByteLookup(Row(table, Number(q)), Column(q)); }
    }
    Digits(q, h);
  }

  lemma WideLookup(group: bv32, table: seq<bv8>, q: bv8)
    requires |table| == 32 && Summary(group, table) && group != 0
    ensures Holds(Wide(group, table), Highest(Wide(group, table)))
    ensures Holds(Wide(group, table), q) ==> Highest(Wide(group, table)) <= q
  {
    hide Bit, BitOfByte, Row, Summary, Number, Column, Lowest, Join;
    WideHighest(group, table);
    var h := Highest(Wide(group, table));
    Compose(Lowest(group), Lowest(Row(table, Lowest(group)) as bv32));
    if Holds(Wide(group, table), q) {
      WideLeast(group, table, q, h);
    }
  }

  /** The lookup finds the least marked priority, and only an empty bitmap has a zero group. */
  lemma HighestIsLeast(m: Map, q: bv8)
    requires Sound(m)
    ensures m.group != 0 ==> Holds(m, Highest(m)) && (Holds(m, q) ==> Highest(m) <= q)
    ensures m.group == 0 ==> !Holds(m, q)
  {
    hide Bit, BitOfByte, Row, Summary, Number, Column, Lowest;
    if m.Narrow? {
      if m.group != 0 {
        LowestIsLeast(m.group, q);
      } else if q < 32 {
        NoBit(q);
      }
    } else if m.group != 0 {
      WideLookup(m.group, m.table, q);
    } else {
      NoBit(Number(q));
      SummaryAt(m.group, m.table, Number(q));
      NoBitOfByte(Column(q));
    }
  }

  // ---- priorities as numbers

  const PRIORITIES: nat := 256

  function Limit(wide: bool): (max: nat)
    ensures max <= PRIORITIES
  {
    if wide then PRIORITIES else 32
  }

  lemma Successor(b: bv8)
    requires b < 255
    ensures (b + 1) as nat == (b as nat) + 1
  {
    hide *;
  }

  /** The priority as the byte it is stored in. */
  function AsByte(p: nat): (b: bv8)
    requires p < PRIORITIES
    ensures b as nat == p
  {
    if p == 0 then 0 else
      Below255(AsByte(p - 1));
      Successor(AsByte(p - 1));
      AsByte(p - 1) + 1
  }

  lemma Below255(b: bv8)
    ensures b < 255 <==> (b as nat) < 255
  {
    hide *;
  }

  lemma AsNumber(b: bv8)
    ensures (b as nat) < PRIORITIES && (b as nat) as bv8 == b
  {
  }

  lemma SameOrder(i: bv8, j: bv8)
    ensures (i as nat) <= (j as nat) <==> i <= j
  {
  }

  lemma BelowLimit(p: nat)
    requires p < PRIORITIES
    ensures p < 32 <==> AsByte(p) < 32
  {
    hide AsByte;
    Below32(AsByte(p));
  }

  lemma Below32(b: bv8)
    ensures b < 32 <==> (b as nat) < 32
  {
    hide *;
  }

  lemma SameByte(p: nat, q: nat)
    requires p < PRIORITIES && q < PRIORITIES
    ensures AsByte(p) == AsByte(q) <==> p == q
  {
  }

  /** number, number_mask and high_mask for a priority. */
  function Attributes(wide: bool, p: nat): (at: Place)
    requires p < Limit(wide)
    ensures at.number < 32
  {
    BelowLimit(p);
    PlaceOf(wide, AsByte(p))
  }

  ghost predicate Marked(m: Map, p: nat) {
    Shaped(m) && p < PRIORITIES && Holds(m, AsByte(p))
  }

  function Top(m: Map): (p: nat)
    requires Shaped(m) && m.group != 0
    ensures p < PRIORITIES
  {
    AsNumber(Highest(m));
    Highest(m) as nat
  }

  lemma SameWidth(m: Map, a: Place)
    requires Shaped(m) && a.number < 32
    ensures Mark(m, a).Wide? == m.Wide? && Clear(m, a).Wide? == m.Wide?
  {
  }

  lemma Marking(m: Map, p: nat)
    requires Sound(m) && p < Limit(m.Wide?)
    ensures var m' := Mark(m, Attributes(m.Wide?, p));
      Sound(m') && m'.Wide? == m.Wide? && forall q: nat :: Marked(m', q) <==> Marked(m, q) || q == p
  {
    assert Mark(m, Attributes(m.Wide?, p)).Wide? == m.Wide? by { SameWidth(m, Attributes(m.Wide?, p)); }
    hide Mark, PlaceOf, Holds, Summary, AsByte;
    BelowLimit(p);
    MarkAdds(m, AsByte(p), AsByte(p));
    var m' := Mark(m, Attributes(m.Wide?, p));
    forall q: nat
      ensures Marked(m', q) <==> Marked(m, q) || q == p
    {
      if q < PRIORITIES {
        MarkAdds(m, AsByte(p), AsByte(q));
        SameByte(p, q);
      }
    }
  }

  lemma Clearing(m: Map, p: nat)
    requires Sound(m) && p < Limit(m.Wide?)
    ensures var m' := Clear(m, Attributes(m.Wide?, p));
      Sound(m') && m'.Wide? == m.Wide? && forall q: nat :: Marked(m', q) <==> Marked(m, q) && q != p
  {
    assert Clear(m, Attributes(m.Wide?, p)).Wide? == m.Wide? by { SameWidth(m, Attributes(m.Wide?, p)); }
    hide Clear, PlaceOf, Holds, Summary, AsByte;
    BelowLimit(p);
    ClearRemoves(m, AsByte(p), AsByte(p));
    var m' := Clear(m, Attributes(m.Wide?, p));
    forall q: nat
      ensures Marked(m', q) <==> Marked(m, q) && q != p
    {
      if q < PRIORITIES {
        ClearRemoves(m, AsByte(p), AsByte(q));
        SameByte(p, q);
      }
    }
  }

  lemma Lookup(m: Map)
    requires Sound(m)
    ensures m.group != 0 ==> Marked(m, Top(m)) && forall q: nat :: Marked(m, q) ==> Top(m) <= q
    ensures m.group == 0 ==> forall q: nat :: !Marked(m, q)
  {
    hide Holds, Summary, Highest, AsByte;
    forall q: nat | Marked(m, q)
      ensures m.group != 0 && Top(m) <= q
    {
      HighestIsLeast(m, AsByte(q));
      SameOrder(Highest(m), AsByte(q));
    }
    if m.group != 0 {
      HighestIsLeast(m, 0);
      AsNumber(Highest(m));
    }
  }

  lemma EmptyIsSound(zeros: seq<bv8>)
    requires |zeros| == 32 && forall i :: 0 <= i < 32 ==> zeros[i] == 0
    ensures Summary(0, zeros)
  {
    hide Bit;
    forall n: bv8 | n < 32
      ensures Bit(0, n as bv32) <==> Row(zeros, n) != 0
    {
      NoBit(n);
      Small(n);
    }
  }
}
