// Unsigned 32-bit arithmetic as the C code does it: rounding with masks, and where it
// wraps around.
module Words {
  type byte = b: int | 0 <= b < 256

  const SPAN: nat := 0x1_0000_0000   // the number of 32-bit values, and of addresses
  const WORD: nat := 4               // sizeof(void *) and RT_ALIGN_SIZE

  function Min(a: int, b: int): int {
    if a <= b then a else b
  }

  function Max(a: int, b: int): int {
    if a >= b then a else b
  }

  /** RT_ALIGN(n, RT_ALIGN_SIZE), by remainders; AlignMasks says that the masks of the source give the same. */
  function AlignUp(n: nat): (r: nat)
    ensures r % WORD == 0 && r <= SPAN - WORD
    ensures n <= SPAN - WORD ==> n <= r < n + WORD
    ensures SPAN - WORD < n < SPAN ==> r == 0
  {
    (n + 3) % SPAN / WORD * WORD
  }

  /** RT_ALIGN_DOWN(n, RT_ALIGN_SIZE) */
  function AlignDown(n: nat): (r: nat)
    ensures r % WORD == 0 && r <= n < r + WORD
  {
    n / WORD * WORD
  }

  /** The least multiple of step that is not below n. */
  function RoundUp(n: nat, step: nat): nat
    requires step > 0
  {
    (n + (step - 1)) / step * step
  }

  // ---- quotients and remainders

  lemma Strides(a: nat, d: int)
    ensures d >= 1 ==> a * d >= a
    ensures d <= -1 ==> a * d <= 0 - a
  {
    assert a * d == a * (d - 1) + a == a * (d + 1) - a;
  }

  /** They are unique. */
  lemma Divides(x: int, a: nat, q: int, r: nat)
    requires a > 0 && x == a * q + r && r < a
    ensures x / a == q && x % a == r
  {
    var d := x / a - q;
    assert a * d == r - x % a;
    Strides(a, d);
  }

  lemma Multiple(q: int, a: nat)
    requires a > 0
    ensures q * a % a == 0
  {
    Divides(q * a, a, q, 0);
  }

  lemma RoundUpBounds(n: nat, step: nat)
    requires step > 0
    ensures n <= RoundUp(n, step) < n + step
    ensures RoundUp(n, step) % step == 0
  {
    var x := n + (step - 1);
    assert x == x / step * step + x % step;
    Multiple(x / step, step);
  }

  lemma AddMultiple(x: nat, y: nat, a: nat)
    requires a > 0 && x % a == 0
    ensures (x + y) % a == y % a
  {
    assert x + y == a * (x / a + y / a) + y % a;
    Divides(x + y, a, x / a + y / a, y % a);
  }

  // ---- masks

  /** The bitwise & of two numbers. */
  function And(x: nat, y: nat): (r: nat)
    ensures r <= x
  {
    if x == 0 || y == 0 then 0 else x % 2 * (y % 2) + 2 * And(x / 2, y / 2)
  }

  /** The bitwise | of two numbers. */
  function Or(x: nat, y: nat): nat {
    x + y - And(x, y)
  }

  /** ~n in 32 bits. */
  function Complement(n: nat): nat
    requires n < SPAN
  {
    SPAN - 1 - n
  }

  predicate PowerOfTwo(n: nat) {
    n == 1 || (n > 1 && n % 2 == 0 && PowerOfTwo(n / 2))
  }

  lemma Halves(x: nat, a: nat)
    requires a > 0
    ensures x % (2 * a) == 2 * (x / 2 % a) + x % 2
  {
    var h := x / 2;
    assert h == a * (h / a) + h % a;
    assert (2 * a) * (h / a) == 2 * (a * (h / a));
    Divides(x, 2 * a, h / a, 2 * (h % a) + x % 2);
  }

  lemma {:induction false} AndOnes(x: nat, a: nat)
    requires PowerOfTwo(a)
    ensures And(x, a - 1) == x % a
  {
    if a > 1 {
      AndOnes(x / 2, a / 2);
      Halves(x, a / 2);
      assert (a - 1) / 2 == a / 2 - 1;
    }
  }

  lemma {:induction false} AndRest(x: nat, a: nat, w: nat)
    requires PowerOfTwo(a) && PowerOfTwo(w) && a <= w && x < w
    ensures And(x, w - a) == x - x % a
  {
    if a == 1 {
      AndOnes(x, w);
      Divides(x, w, 0, x);
    } else if a == w {
      Divides(x, a, 0, x);
    } else {
      AndRest(x / 2, a / 2, w / 2);
      Halves(x, a / 2);
      assert (w - a) / 2 == w / 2 - a / 2;
    }
  }

  lemma {:induction false} PowerProduct(a: nat, b: nat)
    requires PowerOfTwo(a) && PowerOfTwo(b)
    ensures PowerOfTwo(a * b)
  {
    if a > 1 {
      PowerProduct(a / 2, b);
      assert a * b == 2 * (a / 2 * b);
    }
  }

  lemma {:induction false} PowerDivides(a: nat, b: nat)
    requires PowerOfTwo(a) && PowerOfTwo(b) && a <= b
    ensures b % a == 0
  {
    if a > 1 {
      PowerDivides(a / 2, b / 2);
      Halves(b, a / 2);
    }
  }

  lemma Fits32(x: nat)
    requires x < SPAN
    ensures x % SPAN == x
  {
  }

  /** No power of two lies between half of the span and the span. */
  lemma AtMostHalf(a: nat)
    requires PowerOfTwo(a) && a < SPAN
    ensures a <= SPAN / 2
  {
    SpanIsPower();
    PowerDivides(a, SPAN);
    PowerPositive(a);
    hide PowerOfTwo;
    assert SPAN == a * (SPAN / a);
    var q := SPAN / a;
    if q >= 2 {
      assert a * q == a * 2 + a * (q - 2) && a * (q - 2) >= 0;
    }
  }

  lemma SpanIsPower()
    ensures PowerOfTwo(SPAN)
  {
    assert PowerOfTwo(0x1_0000);
    PowerProduct(0x1_0000, 0x1_0000);
  }

  lemma PowerPositive(a: nat)
    requires PowerOfTwo(a)
    ensures a > 0
  {
  }

  /** For a power of two, & (a - 1) is the remainder and & ~(a - 1) rounds down. */
  lemma Masks(x: nat, a: nat)
    requires x < SPAN && 0 < a <= SPAN && PowerOfTwo(a)
    ensures And(x, a - 1) == x % a
    ensures And(x, Complement(a - 1)) == x - x % a == x / a * a
  {
    hide And, PowerOfTwo;
    AndOnes(x, a);
    SpanIsPower();
    AndRest(x, a, SPAN);
    assert x == x / a * a + x % a;
  }

  lemma AlignMasks(n: nat)
    requires n < SPAN
    ensures And((n + (WORD - 1)) % SPAN, Complement(WORD - 1)) == AlignUp(n)
    ensures And(n, Complement(WORD - 1)) == AlignDown(n)
  {
    assert PowerOfTwo(WORD);
    Masks((n + 3) % SPAN, WORD);
    Masks(n, WORD);
  }

  lemma RoundUpMasks(n: nat, step: nat)
    requires step > 0 && n + (step - 1) < SPAN && PowerOfTwo(step)
    ensures And(n + (step - 1), Complement(step - 1)) == RoundUp(n, step)
  {
    hide And, PowerOfTwo;
    Masks(n + (step - 1), step);
  }

  lemma {:induction false} AndSelf(n: nat)
    ensures And(n, n) == n
  {
    if n > 0 { AndSelf(n / 2); }
  }

  lemma {:induction false} AndPredecessor(n: nat)
    requires n > 0
    ensures And(n, n - 1) == 0 <==> PowerOfTwo(n)
  {
    if n % 2 == 0 {
      AndPredecessor(n / 2);
      assert (n - 1) / 2 == n / 2 - 1;
    } else {
      AndSelf(n / 2);
    }
  }

  /** The test of slab.c for a power of two: (n | (n - 1)) + 1 == n << 1. */
  lemma PowerTest(n: nat)
    requires n > 0
    ensures Or(n, n - 1) + 1 == 2 * n <==> PowerOfTwo(n)
  {
    AndPredecessor(n);
  }
}
