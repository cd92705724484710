/** 32-bit words as sequences of bits. Each lemma about the operations on words
    asks the solver about few of them at a time. */
module Words {

  /** Bits, the least significant first. */
  type Bits = seq<bool>

  const ONES: bv32 := 0xFFFFFFFF

  function Zeros(n: nat): (r: Bits)
    ensures |r| == n
  {
    seq(n, i => false)
  }

  function Xor(a: Bits, b: Bits): (r: Bits)
    requires |a| == |b|
    ensures |r| == |a|
    ensures forall i :: 0 <= i < |a| ==> r[i] == (a[i] != b[i])
  {
    seq(|a|, i requires 0 <= i < |a| => a[i] != b[i])
  }

  function Bit(c: bv32, i: nat): bool
    decreases i
  {
    if i == 0 then c & 1 == 1 else Bit(c >> 1, i - 1)
  }

  function Word(c: bv32): (r: Bits)
    ensures |r| == 32
    ensures forall i :: 0 <= i < 32 ==> r[i] == Bit(c, i)
  {
    seq(32, i requires 0 <= i < 32 => Bit(c, i))
  }

  /** A relation of words that relates their lowest bits by `op`, and goes on to
      hold of what remains when these are shifted out. */
  ghost predicate Bitwise(related: (bv32, bv32, bv32) -> bool, op: (bool, bool) -> bool) {
    forall a, b, c :: related(a, b, c) ==>
      (c & 1 == 1) == op(a & 1 == 1, b & 1 == 1) && related(a >> 1, b >> 1, c >> 1)
  }

  lemma {:induction false} BitsOfRelated(related: (bv32, bv32, bv32) -> bool, op: (bool, bool) -> bool,
                                         a: bv32, b: bv32, c: bv32, i: nat)
    requires Bitwise(related, op) && related(a, b, c)
    ensures Bit(c, i) == op(Bit(a, i), Bit(b, i))
    decreases i
  {
    if i > 0 {
      BitsOfRelated(related, op, a >> 1, b >> 1, c >> 1, i - 1);
    }
  }

  ghost predicate IsXor(a: bv32, b: bv32, c: bv32) {
    c == a ^ b
  }

  lemma XorIsBitwise()
    ensures Bitwise(IsXor, (x: bool, y: bool) => x != y)
  {
    forall a: bv32, b: bv32, c: bv32 | IsXor(a, b, c)
      ensures (c & 1 == 1) == ((a & 1 == 1) != (b & 1 == 1)) && IsXor(a >> 1, b >> 1, c >> 1)
    {
      XorParts(a, b, c);
    }
  }

  lemma BitOfXor(a: bv32, b: bv32, c: bv32, i: nat)
    requires IsXor(a, b, c)
    ensures Bit(c, i) == (Bit(a, i) != Bit(b, i))
  {
    XorIsBitwise();
    BitsOfRelated(IsXor, (x: bool, y: bool) => x != y, a, b, c, i);
  }

  lemma XorParts(a: bv32, b: bv32, c: bv32)
    requires c == a ^ b
    ensures (c & 1 == 1) == ((a & 1 == 1) != (b & 1 == 1)) && c >> 1 == (a >> 1) ^ (b >> 1)
  {
  }

  lemma BitOfByteShift(c: bv32, i: nat)
    ensures Bit(c, i + 8) == Bit(c >> 8, i)
  {
    ShiftTwice(c);
    assert Bit(c, i + 8) == Bit(c >> 1, i + 7) == Bit(c >> 2, i + 6) == Bit(c >> 3, i + 5) == Bit(c >> 4, i + 4);
    assert Bit(c >> 4, i + 4) == Bit(c >> 5, i + 3) == Bit(c >> 6, i + 2) == Bit(c >> 7, i + 1) == Bit(c >> 8, i);
  }

  lemma ShiftTwice(c: bv32)
    ensures (c >> 1) >> 1 == c >> 2 && (c >> 2) >> 1 == c >> 3 && (c >> 3) >> 1 == c >> 4 && (c >> 4) >> 1 == c >> 5
    ensures (c >> 5) >> 1 == c >> 6 && (c >> 6) >> 1 == c >> 7 && (c >> 7) >> 1 == c >> 8
  {
  }

  lemma {:induction false} BitOfZero(i: nat)
    ensures !Bit(0, i)
    decreases i
  {
    if i > 0 {
      BitOfZero(i - 1);
    }
  }

  lemma LowestBits(c: bv32)
    ensures Bit(c, 0) == Bit(c >> 0, 0) && Bit(c, 1) == Bit(c >> 1, 0)
    ensures Bit(c, 2) == Bit(c >> 2, 0) && Bit(c, 3) == Bit(c >> 3, 0)
    ensures Bit(c, 4) == Bit(c >> 4, 0) && Bit(c, 5) == Bit(c >> 5, 0)
    ensures Bit(c, 6) == Bit(c >> 6, 0) && Bit(c, 7) == Bit(c >> 7, 0)
  {
    ShiftTwice(c);
    assert Bit(c, 2) == Bit(c >> 1, 1);
    assert Bit(c, 3) == Bit(c >> 1, 2) == Bit(c >> 2, 1);
    assert Bit(c, 4) == Bit(c >> 1, 3) == Bit(c >> 2, 2) == Bit(c >> 3, 1);
    assert Bit(c, 5) == Bit(c >> 1, 4) == Bit(c >> 2, 3) == Bit(c >> 3, 2) == Bit(c >> 4, 1);
    assert Bit(c, 6) == Bit(c >> 1, 5) == Bit(c >> 2, 4) == Bit(c >> 3, 3) == Bit(c >> 4, 2) == Bit(c >> 5, 1);
    assert Bit(c, 7) == Bit(c >> 1, 6) == Bit(c >> 2, 5) == Bit(c >> 3, 4) == Bit(c >> 4, 3) == Bit(c >> 5, 2)
           == Bit(c >> 6, 1);
  }

  lemma WordOfXor(a: bv32, b: bv32)
    ensures Word(a ^ b) == Xor(Word(a), Word(b))
  {
    forall i | 0 <= i < 32 ensures Bit(a ^ b, i) == (Bit(a, i) != Bit(b, i)) {
      BitOfXor(a, b, a ^ b, i);
    }
  }

  lemma WordOfByteShift(c: bv32)
    ensures Word(c >> 8) == Word(c)[8..] + Zeros(8)
  {
    forall i | 0 <= i < 32 ensures Word(c >> 8)[i] == (Word(c)[8..] + Zeros(8))[i] {
      BitOfByteShift(c, i);
      if i >= 24 {
        assert Bit(c >> 8, i) == Bit(c, i + 8);
        BitsEnd(c, i + 8);
      }
    }
  }

  /** A word has no bit 32 or above. */
  lemma BitsEnd(c: bv32, i: nat)
    requires i >= 32
    ensures !Bit(c, i)
  {
    calc {
      Bit(c, i);
      { BitOfByteShift(c, i - 8); }
      Bit(c >> 8, i - 8);
      { BitOfByteShift(c >> 8, i - 16); }
      Bit((c >> 8) >> 8, i - 16);
      { BitOfByteShift((c >> 8) >> 8, i - 24); }
      Bit(((c >> 8) >> 8) >> 8, i - 24);
      { BitOfByteShift(((c >> 8) >> 8) >> 8, i - 32); }
      Bit((((c >> 8) >> 8) >> 8) >> 8, i - 32);
      { AllShiftedOut(c); }
      Bit(0, i - 32);
    }
    BitOfZero(i - 32);
  }

  lemma AllShiftedOut(c: bv32)
    ensures (((c >> 8) >> 8) >> 8) >> 8 == 0
  {
  }

  lemma WordOfShift(c: bv32)
    ensures Word(c >> 1) == Word(c)[1..] + [false]
  {
    forall i | 0 <= i < 32 ensures Word(c >> 1)[i] == (Word(c)[1..] + [false])[i] {
      assert Bit(c >> 1, i) == Bit(c, i + 1);
      if i == 31 {
        BitsEnd(c, 32);
      }
    }
  }

  lemma BitInByte(c: bv32, i: nat)
    ensures i >= 8 ==> Bit(c, i) == Bit(c >> 8, i - 8)
    ensures i >= 16 ==> Bit(c, i) == Bit(c >> 16, i - 16)
    ensures i >= 24 ==> Bit(c, i) == Bit(c >> 24, i - 24)
  {
    assert (c >> 8) >> 8 == c >> 16 && (c >> 16) >> 8 == c >> 24;
    if i >= 8 {
      BitOfByteShift(c, i - 8);
    }
    if i >= 16 {
      BitOfByteShift(c >> 8, i - 16);
    }
    if i >= 24 {
      BitOfByteShift(c >> 16, i - 24);
    }
  }

  lemma AllOnes(i: nat)
    requires i < 32
    ensures Bit(ONES, i)
  {
    LowestBits(ONES);
    LowestBits(ONES >> 8);
    LowestBits(ONES >> 16);
    LowestBits(ONES >> 24);
    BitInByte(ONES, i);
  }

  ghost predicate IsAnd(a: bv32, b: bv32, c: bv32) {
    c == a & b
  }

  lemma AndIsBitwise()
    ensures Bitwise(IsAnd, (x: bool, y: bool) => x && y)
  {
    forall a: bv32, b: bv32, c: bv32 | IsAnd(a, b, c)
      ensures (c & 1 == 1) == (a & 1 == 1 && b & 1 == 1) && IsAnd(a >> 1, b >> 1, c >> 1)
    {
      AndParts(a, b, c);
    }
  }

  lemma BitOfAnd(a: bv32, b: bv32, c: bv32, i: nat)
    requires IsAnd(a, b, c)
    ensures Bit(c, i) == (Bit(a, i) && Bit(b, i))
  {
    AndIsBitwise();
    BitsOfRelated(IsAnd, (x: bool, y: bool) => x && y, a, b, c, i);
  }

  lemma AndParts(a: bv32, b: bv32, c: bv32)
    requires c == a & b
    ensures (c & 1 == 1) == (a & 1 == 1 && b & 1 == 1) && c >> 1 == (a >> 1) & (b >> 1)
  {
  }

  /** Doubling a word moves its bits up; the highest is lost. */
  lemma BitOfDouble(c: bv32, d: bv32, i: nat)
    requires d == c << 1 && i < 32
    ensures Bit(d, i) == (i > 0 && Bit(c, i - 1))
  {
    DoubleParts(c, d, d >> 1, ONES >> 1);
    if i > 0 {
      BitOfHalf(c, d >> 1, ONES >> 1, i - 1);
    }
  }

  lemma BitOfHalf(c: bv32, half: bv32, mask: bv32, i: nat)
    requires IsAnd(c, mask, half) && mask == ONES >> 1 && i < 31
    ensures Bit(half, i) == Bit(c, i)
  {
    BitOfAnd(c, mask, half, i);
    HalfOnes(i);
  }

  lemma DoubleParts(c: bv32, d: bv32, half: bv32, mask: bv32)
    requires d == c << 1 && half == d >> 1 && mask == ONES >> 1
    ensures d & 1 == 0 && IsAnd(c, mask, half)
  {
  }

  lemma HalfOnes(i: nat)
    requires i < 31
    ensures Bit(ONES >> 1, i)
  {
    AllOnes(i + 1);
  }

  lemma WordIsInjective(a: bv32, b: bv32)
    requires Word(a) == Word(b)
    ensures a == b
  {
    forall i | 0 <= i < 32 ensures Bit(a, i) == Bit(b, i) {
      assert Word(a)[i] == Word(b)[i];
    }
    BitsAreInjective(a, b, a >> 8, b >> 8, a >> 16, b >> 16, a >> 24, b >> 24);
  }

  lemma BitsAreInjective(a: bv32, b: bv32, a1: bv32, b1: bv32, a2: bv32, b2: bv32, a3: bv32, b3: bv32)
    requires a1 == a >> 8 && b1 == b >> 8 && a2 == a >> 16 && b2 == b >> 16 && a3 == a >> 24 && b3 == b >> 24
    requires forall i :: 0 <= i < 32 ==> Bit(a, i) == Bit(b, i)
    ensures a == b
  {
    forall i | 0 <= i < 8 ensures Bit(a1, i) == Bit(b1, i) && Bit(a2, i) == Bit(b2, i) && Bit(a3, i) == Bit(b3, i) {
      BitInByte(a, i + 8);
      BitInByte(b, i + 8);
      BitInByte(a, i + 16);
      BitInByte(b, i + 16);
      BitInByte(a, i + 24);
      BitInByte(b, i + 24);
    }
    LowByteIsInjective(a, b);
    LowByteIsInjective(a1, b1);
    LowByteIsInjective(a2, b2);
    LowByteIsInjective(a3, b3);
    FourBytes(a, b, a1, b1, a2, b2, a3, b3);
  }

  lemma LowByteIsInjective(x: bv32, y: bv32)
    requires forall i :: 0 <= i < 8 ==> Bit(x, i) == Bit(y, i)
    ensures x & 0xFF == y & 0xFF
  {
    LowestBits(x);
    LowestBits(y);
    EightBits(x, y);
  }

  lemma EightBits(x: bv32, y: bv32)
    requires Bit(x >> 0, 0) == Bit(y >> 0, 0) && Bit(x >> 1, 0) == Bit(y >> 1, 0)
    requires Bit(x >> 2, 0) == Bit(y >> 2, 0) && Bit(x >> 3, 0) == Bit(y >> 3, 0)
    requires Bit(x >> 4, 0) == Bit(y >> 4, 0) && Bit(x >> 5, 0) == Bit(y >> 5, 0)
    requires Bit(x >> 6, 0) == Bit(y >> 6, 0) && Bit(x >> 7, 0) == Bit(y >> 7, 0)
    ensures x & 0xFF == y & 0xFF
  {
  }

  lemma FourBytes(a: bv32, b: bv32, a1: bv32, b1: bv32, a2: bv32, b2: bv32, a3: bv32, b3: bv32)
    requires a1 == a >> 8 && b1 == b >> 8 && a2 == a >> 16 && b2 == b >> 16 && a3 == a >> 24 && b3 == b >> 24
    requires a & 0xFF == b & 0xFF && a1 & 0xFF == b1 & 0xFF && a2 & 0xFF == b2 & 0xFF && a3 & 0xFF == b3 & 0xFF
    ensures a == b
  {
  }
}
