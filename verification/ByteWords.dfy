/** Eight bytes as one machine word, and the bit trick that finds a byte on
    which two words agree. */
module ByteWords {
  import opened Common

  const WORD := 8   // sizeof(long)

  /** The bit trick that finds a zero byte in a word. */
  predicate ZeroByteTest(xor: bv64) {
    var mask: bv64 := 0x0101010101010101;
    (xor - mask) & !xor & (mask << 7) != 0
  }

  lemma ZeroByteTestExact(x: bv64)
    ensures ZeroByteTest(x) <==>
      x & 0xff == 0 || x & 0xff00 == 0 || x & 0xff0000 == 0 || x & 0xff000000 == 0 ||
      x & 0xff00000000 == 0 || x & 0xff0000000000 == 0 || x & 0xff000000000000 == 0 || x & 0xff00000000000000 == 0
  {
  }

  /** A byte as a bit vector, half by half. */
  function Octet(a: Byte): bv8 {
    Halves((a / 16) as bv4, (a % 16) as bv4)
  }

  function Halves(high: bv4, low: bv4): bv8 {
    (high as bv8 << 4) | (low as bv8)
  }

  /** Eight bytes read as one word, the first byte lowest. */
  function Load(b0: bv8, b1: bv8, b2: bv8, b3: bv8, b4: bv8, b5: bv8, b6: bv8, b7: bv8): bv64 {
    (b0 as bv64) | (b1 as bv64 << 8) | (b2 as bv64 << 16) | (b3 as bv64 << 24) |
    (b4 as bv64 << 32) | (b5 as bv64 << 40) | (b6 as bv64 << 48) | (b7 as bv64 << 56)
  }

  function WordAt(s: seq<Byte>, i: nat): bv64
    requires i + WORD <= |s|
  {
    Load(Octet(s[i]), Octet(s[i + 1]), Octet(s[i + 2]), Octet(s[i + 3]),
         Octet(s[i + 4]), Octet(s[i + 5]), Octet(s[i + 6]), Octet(s[i + 7]))
  }

  lemma LoadXor(a0: bv8, a1: bv8, a2: bv8, a3: bv8, a4: bv8, a5: bv8, a6: bv8, a7: bv8,
                b0: bv8, b1: bv8, b2: bv8, b3: bv8, b4: bv8, b5: bv8, b6: bv8, b7: bv8)
    ensures Load(a0, a1, a2, a3, a4, a5, a6, a7) ^ Load(b0, b1, b2, b3, b4, b5, b6, b7)
            == Load(a0 ^ b0, a1 ^ b1, a2 ^ b2, a3 ^ b3, a4 ^ b4, a5 ^ b5, a6 ^ b6, a7 ^ b7)
  {
  }

  lemma LoadLanes(b0: bv8, b1: bv8, b2: bv8, b3: bv8, b4: bv8, b5: bv8, b6: bv8, b7: bv8)
    ensures ZeroByteTest(Load(b0, b1, b2, b3, b4, b5, b6, b7)) <==>
      b0 == 0 || b1 == 0 || b2 == 0 || b3 == 0 || b4 == 0 || b5 == 0 || b6 == 0 || b7 == 0
  {
    hide ZeroByteTest;
    ZeroByteTestExact(Load(b0, b1, b2, b3, b4, b5, b6, b7));
  }

  lemma XorZero(a: bv8, b: bv8)
    ensures a ^ b == 0 <==> a == b
  {
  }

  /** The trick on the exclusive-or of two loaded words. */
  lemma XorFindsZero(a0: bv8, a1: bv8, a2: bv8, a3: bv8, a4: bv8, a5: bv8, a6: bv8, a7: bv8,
                     b0: bv8, b1: bv8, b2: bv8, b3: bv8, b4: bv8, b5: bv8, b6: bv8, b7: bv8)
    ensures ZeroByteTest(Load(a0, a1, a2, a3, a4, a5, a6, a7) ^ Load(b0, b1, b2, b3, b4, b5, b6, b7)) <==>
      a0 == b0 || a1 == b1 || a2 == b2 || a3 == b3 || a4 == b4 || a5 == b5 || a6 == b6 || a7 == b7
  {
    hide ZeroByteTest, Load;
    LoadXor(a0, a1, a2, a3, a4, a5, a6, a7, b0, b1, b2, b3, b4, b5, b6, b7);
    LoadLanes(a0 ^ b0, a1 ^ b1, a2 ^ b2, a3 ^ b3, a4 ^ b4, a5 ^ b5, a6 ^ b6, a7 ^ b7);
    XorZero(a0, b0);
    XorZero(a1, b1);
    XorZero(a2, b2);
    XorZero(a3, b3);
    XorZero(a4, b4);
    XorZero(a5, b5);
    XorZero(a6, b6);
    XorZero(a7, b7);
  }

  lemma SameHalves(a: bv4, b: bv4, c: bv4, d: bv4)
    ensures Halves(a, b) == Halves(c, d) <==> a == c && b == d
  {
  }

  lemma AsHalf(a: int)
    requires 0 <= a < 16
    ensures (a as bv4) as int == a
  {
  }

  lemma SameByte(a: Byte, b: Byte)
    ensures Octet(a) == Octet(b) <==> a == b
  {
    hide Halves;
    SameHalves((a / 16) as bv4, (a % 16) as bv4, (b / 16) as bv4, (b % 16) as bv4);
    AsHalf(a / 16);
    AsHalf(a % 16);
    AsHalf(b / 16);
    AsHalf(b % 16);
  }

  /** The bit trick on the exclusive-or of two words finds a byte on which
      they agree. */
  lemma XorFindsEqual(s: seq<Byte>, t: seq<Byte>, i: nat)
    requires |s| == |t| && i + WORD <= |t|
    ensures ZeroByteTest(WordAt(s, i) ^ WordAt(t, i)) <==> exists k | i <= k < i + WORD :: s[k] == t[k]
  {
    hide ZeroByteTest, Load, Octet;
    XorFindsZero(
      Octet(s[i]), Octet(s[i + 1]), Octet(s[i + 2]), Octet(s[i + 3]),
      Octet(s[i + 4]), Octet(s[i + 5]), Octet(s[i + 6]), Octet(s[i + 7]),
      Octet(t[i]), Octet(t[i + 1]), Octet(t[i + 2]), Octet(t[i + 3]),
      Octet(t[i + 4]), Octet(t[i + 5]), Octet(t[i + 6]), Octet(t[i + 7]));
    forall k | i <= k < i + WORD
      ensures Octet(s[k]) == Octet(t[k]) <==> s[k] == t[k]
    {
      SameByte(s[k], t[k]);
    }
  }
}
