/** Numbers divided into slots of equal width: which slot a number falls into
    and where slots begin.  The widths are variables, so each fact about the
    product of a slot number and a width is stated once, here. */
module Slots {
  lemma DivBound(q: nat, n: nat, a: nat)
    requires a > 0 && q < n * a
    ensures 0 <= q / a < n && 0 <= q % a < a
  {
    var k := q / a;
    assert q == a * k + q % a;
    assert k >= n ==> a * k >= a * n;
  }

  /** The bounds of slot i. */
  function Edge(i: nat, a: nat): nat { i * a }

  lemma Edges(i: nat, a: nat)
    ensures Edge(0, a) == 0 && Edge(i + 1, a) == Edge(i, a) + a
  {
  }

  lemma EdgeMonotone(i: nat, j: nat, a: nat)
    requires i <= j
    ensures Edge(i, a) <= Edge(j, a)
  {
    assert (j - i) * a >= 0;
  }

  lemma SlotOf(q: nat, a: nat)
    requires a > 0
    ensures Edge(q / a, a) <= q < Edge(q / a, a) + a && q % a == q - Edge(q / a, a)
  {
    assert q == a * (q / a) + q % a;
  }

  lemma SlotUnique(q: nat, i: nat, a: nat)
    requires a > 0 && Edge(i, a) <= q < Edge(i, a) + a
    ensures q / a == i
  {
    var k := q / a;
    assert q == a * k + q % a;
    var d := k - i;
    assert a * k == a * i + a * d;
    assert d >= 1 ==> a * d >= a;
    assert d <= -1 ==> a * d + a <= 0;
  }
}
