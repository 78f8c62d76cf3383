/** Small shared vocabulary: optional values, bytes, and rounding to a
    multiple (the source writes these with power-of-two masks). */
module Common {
  datatype Option<+T> = None | Some(value: T)

  type Byte = x: int | 0 <= x < 256

  /** 1 << 32 */
  const TWO32: nat := 0x1_0000_0000

  /** 1 << 64 */
  const TWO64: nat := 0x1_0000_0000_0000_0000

  /** INT_MAX + 1 */
  const INT_TOP: int := 0x8000_0000

  /** A conversion to int. */
  function Int32(x: int): (r: int)
    ensures -INT_TOP <= r < INT_TOP && (-INT_TOP <= x < INT_TOP ==> r == x)
  {
    (x + INT_TOP) % (2 * INT_TOP) - INT_TOP
  }

  function Zeros(n: nat): (r: seq<Byte>)
    ensures |r| == n && forall i | 0 <= i < n :: r[i] == 0
  {
    seq(n, _ => 0)
  }

  function Min(a: int, b: int): int { if a <= b then a else b }

  function Max(a: int, b: int): int { if a >= b then a else b }

  /** The integers of [lo, hi) as a set. */
  function Range(lo: int, hi: int): (r: set<int>)
    ensures forall p :: p in r <==> lo <= p < hi
    decreases hi - lo
  {
    if lo >= hi then {} else {lo} + Range(lo + 1, hi)
  }

  lemma {:induction false} RangeSize(lo: int, hi: int)
    ensures |Range(lo, hi)| == if lo < hi then hi - lo else 0
    decreases hi - lo
  {
    if lo < hi {
      RangeSize(lo + 1, hi);
    }
  }

  /** (n & (a - 1)) == 0 */
  predicate Multiple(n: int, a: int)
    requires a > 0
  {
    n % a == 0
  }

  /** n & ~(a - 1) */
  function RoundDown(n: int, a: int): int
    requires a > 0
  {
    n - n % a
  }

  /** ROUND_UP(n, a) */
  function RoundUp(n: int, a: int): int
    requires a > 0
  {
    RoundDown(n + a - 1, a)
  }

  lemma MultipleUnique(a: int, k: int, n: int)
    requires a > 0 && k * a <= n < k * a + a
    ensures RoundDown(n, a) == k * a
    ensures n % a == n - k * a
  {
    assert n == a * (n / a) + n % a;
    assert a * k == k * a;
    var d := n / a - k;
    assert a * d == a * (n / a) - a * k;
    assert d >= 1 ==> a * d >= a;
    assert d <= -1 ==> a * d <= -a;
  }

  /** RoundDown and RoundUp are the nearest multiples on either side. */
  lemma Rounding(n: int, a: int)
    requires a > 0
    ensures RoundDown(n, a) <= n < RoundDown(n, a) + a
    ensures n <= RoundUp(n, a) < n + a
    ensures RoundDown(n, a) % a == 0 && RoundUp(n, a) % a == 0
    ensures n % a == 0 ==> RoundDown(n, a) == n && RoundUp(n, a) == n
    ensures n % a != 0 ==> RoundUp(n, a) == RoundDown(n, a) + a
    ensures n >= 0 ==> RoundDown(n, a) >= 0
  {
    var k := n / a;
    assert n == a * k + n % a;
    assert k >= 0 ==> a * k >= 0;
    assert RoundDown(n, a) == k * a;
    MultipleUnique(a, k, k * a);
    if n % a == 0 {
      MultipleUnique(a, k, n + a - 1);
      assert RoundUp(n, a) == k * a;
    } else {
      assert (k + 1) * a == k * a + a;
      MultipleUnique(a, k + 1, n + a - 1);
      MultipleUnique(a, k + 1, (k + 1) * a);
    }
  }

  /** Two multiples that differ are at least a apart. */
  lemma MultiplesApart(m: int, n: int, a: int)
    requires a > 0 && m % a == 0 && n % a == 0 && m < n
    ensures m + a <= n
  {
    assert m == a * (m / a) && n == a * (n / a);
    var d := n / a - m / a;
    assert a * d == n - m;
    assert d <= 0 ==> a * d <= 0;
    assert a * d >= a;
  }
}
