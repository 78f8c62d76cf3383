/** Numbers as bytes, in either byte order. */
module Numbers {
  import opened Common

  // ---- big-endian numbers

  function Be(n: nat, k: nat): (b: seq<Byte>)
    ensures |b| == k
    decreases k
  {
    if k == 0 then [] else Be(n / 256, k - 1) + [n % 256]
  }

  function FromBe(b: seq<Byte>): nat {
    if b == [] then 0 else FromBe(b[..|b| - 1]) * 256 + b[|b| - 1]
  }

  function Limit(k: nat): nat { if k == 0 then 1 else 256 * Limit(k - 1) }

  lemma {:induction false} BeRoundTrip(n: nat, k: nat)
    requires n < Limit(k)
    ensures FromBe(Be(n, k)) == n
    decreases k
  {
    if k > 0 {
      BeRoundTrip(n / 256, k - 1);
      assert Be(n, k)[..k - 1] == Be(n / 256, k - 1);
    }
  }

  lemma Be64RoundTrip(n: nat)
    requires n < TWO64
    ensures FromBe(Be(n, 8)) == n
  {
    assert Limit(4) == 0x1_0000_0000;
    assert Limit(8) == TWO64;
    BeRoundTrip(n, 8);
  }

  lemma Be16RoundTrip(n: nat)
    requires n < 0x1_0000
    ensures FromBe(Be(n, 2)) == n
  {
    BeRoundTrip(n, 2);
  }

  // ---- little-endian numbers

  function Le(n: nat, k: nat): (b: seq<Byte>)
    ensures |b| == k
    decreases k
  {
    if k == 0 then [] else [n % 256] + Le(n / 256, k - 1)
  }

  function FromLe(b: seq<Byte>): nat {
    if b == [] then 0 else b[0] + 256 * FromLe(b[1..])
  }

  lemma {:induction false} LeRoundTrip(n: nat, k: nat)
    requires n < Limit(k)
    ensures FromLe(Le(n, k)) == n
    decreases k
  {
    if k > 0 {
      LeRoundTrip(n / 256, k - 1);
      assert Le(n, k)[1..] == Le(n / 256, k - 1);
    }
  }

  lemma Limits()
    ensures Limit(4) == 0x1_0000_0000 && Limit(8) == TWO64
  {
    assert Limit(4) == 0x1_0000_0000;
    assert Limit(8) == TWO64;
  }

  // ---- spelled out

  /** The number that bytes are, the first one highest. */
  function Value2(b: seq<Byte>): nat
    requires |b| == 2
  {
    0x100 * (b[0] as int) + b[1] as int
  }

  function Value4(b: seq<Byte>): nat
    requires |b| == 4
  {
    0x100_0000 * (b[0] as int) + 0x1_0000 * (b[1] as int) + 0x100 * (b[2] as int) + b[3] as int
  }

  function Value8(b: seq<Byte>): nat
    requires |b| == 8
  {
    0x100_0000_0000_0000 * (b[0] as int) + 0x1_0000_0000_0000 * (b[1] as int) + 0x100_0000_0000 * (b[2] as int) +
    0x1_0000_0000 * (b[3] as int) + 0x100_0000 * (b[4] as int) + 0x1_0000 * (b[5] as int) + 0x100 * (b[6] as int) + b[7] as int
  }

  function Backwards(b: seq<Byte>): (r: seq<Byte>)
    ensures |r| == |b| && forall i | 0 <= i < |b| :: r[i] == b[|b| - 1 - i]
  {
    if b == [] then [] else Backwards(b[1..]) + [b[0]]
  }

  lemma Be2Is(n: nat)
    requires n < 0x1_0000
    ensures Value2(Be(n, 2)) == n
  {
    assert Be(n / 256, 1) == Be(n / 256 / 256, 0) + [n / 256 % 256];
  }

  lemma Be4Is(n: nat)
    requires n < 0x1_0000_0000
    ensures Value4(Be(n, 4)) == n
  {
    var b, c := Be(n, 4), Be(n / 0x1_0000, 2);
    assert Be(n / 256, 3) == Be(n / 256 / 256, 2) + [n / 256 % 256];
    assert n / 256 / 256 == n / 0x1_0000;
    Be2Is(n / 0x1_0000);
    assert b == c + [n / 256 % 256, n % 256];
  }

  lemma Be8Is(n: nat)
    requires n < TWO64
    ensures Value8(Be(n, 8)) == n
  {
    var m := n / 0x1_0000_0000;
    BeSplit4(n, 4);
    Be4Is(m);
    Be4Is(n % 0x1_0000_0000);
    hide Be;
    var b, hi, lo := Be(n, 8), Be(m, 4), Be(n % 0x1_0000_0000, 4);
    assert b == hi + lo;
  }

  /** The last four bytes of a number, and what is above them. */
  lemma BeSplit4(n: nat, k: nat)
    ensures Be(n, k + 4) == Be(n / 0x1_0000_0000, k) + Be(n % 0x1_0000_0000, 4)
  {
    BeSplit2(n, k + 2);
    BeSplit2(n / 0x1_0000, k);
    BeSplit2(n % 0x1_0000_0000, 2);
    assert n / 0x1_0000 / 0x1_0000 == n / 0x1_0000_0000;
    assert n % 0x1_0000_0000 / 0x1_0000 == n / 0x1_0000 % 0x1_0000;
    assert n % 0x1_0000_0000 % 0x1_0000 == n % 0x1_0000;
  }

  lemma BeSplit2(n: nat, k: nat)
    ensures Be(n, k + 2) == Be(n / 0x1_0000, k) + Be(n % 0x1_0000, 2)
  {
    assert Be(n / 256, k + 1) == Be(n / 256 / 256, k) + [n / 256 % 256];
    assert n / 256 / 256 == n / 0x1_0000;
    var m := n % 0x1_0000;
    assert Be(m / 256, 1) == Be(m / 256 / 256, 0) + [m / 256 % 256];
    assert m / 256 % 256 == n / 256 % 256 && m % 256 == n % 256;
  }

  /** Little-endian is big-endian backwards. */
  lemma {:induction false} LeIsBackwards(n: nat, k: nat)
    ensures Le(n, k) == Backwards(Be(n, k))
    decreases k
  {
    if k > 0 {
      LeIsBackwards(n / 256, k - 1);
      var c := Be(n / 256, k - 1);
      LastFirst(c, n % 256);
    }
  }

  lemma LastFirst(c: seq<Byte>, x: Byte)
    ensures Backwards(c + [x]) == [x] + Backwards(c)
  {
    hide Backwards;
    var r, t := Backwards(c + [x]), [x] + Backwards(c);
    assert |r| == |t|;
    forall i | 0 <= i < |r|
      ensures r[i] == t[i]
    {
      if i > 0 {
        assert (c + [x])[|c| - i] == c[|c| - i];
      }
    }
  }
}
