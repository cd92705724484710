/** CRC-32 with a table (rtc_base/crc32.cc) against the CRC computed bit by bit
    (section 8 of RFC 1952), and the errors that it is certain to notice. */
module Crc32 {

  import opened Basics
  import opened Words

  const POLYNOMIAL: bv32 := 0xEDB88320

  // ---------- Bit by bit ----------

  /** The exponents of the CRC-32 polynomial below 32. */
  const EXPONENTS: set<nat> := {26, 23, 22, 16, 12, 11, 10, 8, 7, 5, 4, 2, 1, 0}

  /** The polynomial in reversed form: bit `i` belongs to the exponent `31 - i`. */
  function Polynomial(): (r: Bits)
    ensures |r| == 32
  {
    seq(32, i requires 0 <= i < 32 => (31 - i) in EXPONENTS)
  }

  /** The register shifts by one bit; the bit shifted out selects the polynomial. */
  function ShiftStep(r: Bits): (next: Bits)
    requires |r| == 32
    ensures |next| == 32
  {
    var shifted := r[1..] + [false];
    if r[0] then Xor(Polynomial(), shifted) else shifted
  }

  function ShiftSteps(r: Bits, n: nat): (next: Bits)
    requires |r| == 32
    ensures |next| == 32
    decreases n
  {
    if n == 0 then r else ShiftSteps(ShiftStep(r), n - 1)
  }

  /** A message bit enters the register at the end that is shifted out. */
  function Feed(r: Bits, message: Bits): (next: Bits)
    requires |r| == 32
    ensures |next| == 32
    decreases |message|
  {
    if message == [] then r
    else Feed(ShiftStep(r[0 := r[0] != message[0]]), message[1..])
  }

  lemma {:induction false} FeedOfConcat(r: Bits, a: Bits, b: Bits)
    requires |r| == 32
    ensures Feed(r, a + b) == Feed(Feed(r, a), b)
    decreases |a|
  {
    if a == [] {
      assert a + b == b;
    } else {
      assert (a + b)[1..] == a[1..] + b;
      FeedOfConcat(ShiftStep(r[0 := r[0] != a[0]]), a[1..], b);
    }
  }

  // ---------- The register is linear and loses nothing ----------

  lemma StepIsInjective(a: Bits, b: Bits)
    requires |a| == |b| == 32 && ShiftStep(a) == ShiftStep(b)
    ensures a == b
  {
    assert Polynomial()[31];
    assert ShiftStep(a)[31] == a[0] && ShiftStep(b)[31] == b[0];
    forall i | 1 <= i < 32 ensures a[i] == b[i] {
      assert ShiftStep(a)[i - 1] == ShiftStep(b)[i - 1];
    }
  }

  lemma {:induction false} StepsAreInjective(a: Bits, b: Bits, n: nat)
    requires |a| == |b| == 32 && ShiftSteps(a, n) == ShiftSteps(b, n)
    ensures a == b
    decreases n
  {
    if n > 0 {
      StepsAreInjective(ShiftStep(a), ShiftStep(b), n - 1);
      StepIsInjective(a, b);
    }
  }

  lemma {:induction false} FeedIsInjective(a: Bits, b: Bits, message: Bits)
    requires |a| == |b| == 32 && Feed(a, message) == Feed(b, message)
    ensures a == b
    decreases |message|
  {
    if message != [] {
      var a1, b1 := a[0 := a[0] != message[0]], b[0 := b[0] != message[0]];
      FeedIsInjective(ShiftStep(a1), ShiftStep(b1), message[1..]);
      StepIsInjective(a1, b1);
      assert a == a1[0 := a1[0] != message[0]] && b == b1[0 := b1[0] != message[0]];
    }
  }

  /** What lies above the lowest bit just moves down. */
  lemma StepMoves(low: Bits, high: Bits)
    requires |low| == |high| == 32 && !high[31]
    ensures ShiftStep(Xor(low, [false] + high[..31])) == Xor(ShiftStep(low), high)
  {
  }

  /** A word moved up by `n` bits. */
  function Up(high: Bits, n: nat): (r: Bits)
    requires |high| == 32 && n <= 32
    ensures |r| == 32
  {
    Zeros(n) + high[..32 - n]
  }

  lemma UpUnfolds(high: Bits, n: nat)
    requires |high| == 32 && 0 < n <= 32 && high[32 - n..] == Zeros(n)
    ensures Up(high, n) == [false] + Up(high, n - 1)[..31]
    ensures !Up(high, n - 1)[31] && high[32 - (n - 1)..] == Zeros(n - 1)
  {
    assert high[32 - n] == high[32 - n..][0];
    assert high[32 - (n - 1)..] == high[32 - n..][1..];
  }

  /** A word moved up by `n` bits comes down again in `n` steps. */
  lemma {:induction false} StepsMove(low: Bits, high: Bits, n: nat)
    requires |low| == |high| == 32 && n <= 32 && high[32 - n..] == Zeros(n)
    ensures ShiftSteps(Xor(low, Up(high, n)), n) == Xor(ShiftSteps(low, n), high)
    decreases n
  {
    if n == 0 {
      assert Up(high, 0) == high;
    } else {
      UpUnfolds(high, n);
      StepMoves(low, Up(high, n - 1));
      StepsMove(ShiftStep(low), high, n - 1);
    }
  }

  /** Up to 32 message bits enter the register as one word. */
  lemma {:induction false} FeedOfWord(r: Bits, message: Bits)
    requires |r| == 32 && |message| <= 32
    ensures Feed(r, message) == ShiftSteps(Xor(r, message + Zeros(32 - |message|)), |message|)
    decreases |message|
  {
    if message == [] {
      assert Xor(r, [] + Zeros(32)) == r;
    } else {
      FeedOfWord(ShiftStep(r[0 := r[0] != message[0]]), message[1..]);
      FirstBitFed(r, message);
    }
  }

  lemma FirstBitFed(r: Bits, message: Bits)
    requires |r| == 32 && 0 < |message| <= 32
    ensures Xor(ShiftStep(r[0 := r[0] != message[0]]), message[1..] + Zeros(33 - |message|))
         == ShiftStep(Xor(r, message + Zeros(32 - |message|)))
  {
    StepMoves(r[0 := r[0] != message[0]], message[1..] + Zeros(33 - |message|));
    FirstBitApart(r, message);
  }

  lemma FirstBitApart(r: Bits, message: Bits)
    requires |r| == 32 && 0 < |message| <= 32
    ensures var high := message[1..] + Zeros(33 - |message|);
            Xor(r[0 := r[0] != message[0]], [false] + high[..31]) == Xor(r, message + Zeros(32 - |message|))
  {
  }

  // ---------- What is certain to be noticed ----------

  lemma WordIsNoticed(r: Bits, a: Bits, b: Bits)
    requires |r| == 32 && |a| == |b| <= 32 && Feed(r, a) == Feed(r, b)
    ensures a == b
  {
    var zeros := Zeros(32 - |a|);
    FeedOfWord(r, a);
    FeedOfWord(r, b);
    StepsAreInjective(Xor(r, a + zeros), Xor(r, b + zeros), |a|);
    forall i | 0 <= i < |a| ensures a[i] == b[i] {
      assert Xor(r, a + zeros)[i] == Xor(r, b + zeros)[i];
    }
  }

  /** Two messages of one length that differ, but only within 32 consecutive bits,
      never end in the same register. */
  lemma BurstIsNoticed(r: Bits, before: Bits, a: Bits, b: Bits, after: Bits)
    requires |r| == 32 && |a| == |b| <= 32 && a != b
    ensures Feed(r, before + a + after) != Feed(r, before + b + after)
  {
    FeedThreeParts(r, before, a, after);
    FeedThreeParts(r, before, b, after);
    var s := Feed(r, before);
    if Feed(Feed(s, a), after) == Feed(Feed(s, b), after) {
      FeedIsInjective(Feed(s, a), Feed(s, b), after);
      WordIsNoticed(s, a, b);
    }
  }

  lemma FeedThreeParts(r: Bits, before: Bits, word: Bits, after: Bits)
    requires |r| == 32
    ensures Feed(r, before + word + after) == Feed(Feed(Feed(r, before), word), after)
  {
    FeedOfConcat(r, before + word, after);
    FeedOfConcat(r, before, word);
  }

  // ---------- Bytes as bits ----------

  function BitsOf(u: byte): (r: Bits)
    ensures |r| == 8
  {
    Word(u as bv32)[..8]
  }

  function MessageBits(bytes: seq<byte>): Bits {
    if bytes == [] then [] else BitsOf(bytes[0]) + MessageBits(bytes[1..])
  }

  lemma WordOfByte(u: byte)
    ensures Word(u as bv32) == BitsOf(u) + Zeros(24)
  {
    var w := u as bv32;
    assert w >> 8 == 0;
    forall i | 8 <= i < 32 ensures !Bit(w, i) {
      BitOfByteShift(w, i - 8);
      BitOfZero(i - 8);
    }
  }

  function LowByte(x: bv32): byte {
    (x & 0xFF) as bv8
  }

  lemma LowByteBits(x: bv32)
    ensures Word(x)[..8] == BitsOf(LowByte(x))
  {
    var low := LowByte(x) as bv32;
    LowestBits(x);
    LowestBits(low);
    LowByteShifts(x, low);
    forall i | 0 <= i < 8 ensures Bit(x, i) == Bit(low, i) {
    }
  }

  lemma LowByteShifts(x: bv32, low: bv32)
    requires low == x & 0xFF
    ensures Bit(x >> 0, 0) == Bit(low >> 0, 0) && Bit(x >> 1, 0) == Bit(low >> 1, 0)
    ensures Bit(x >> 2, 0) == Bit(low >> 2, 0) && Bit(x >> 3, 0) == Bit(low >> 3, 0)
    ensures Bit(x >> 4, 0) == Bit(low >> 4, 0) && Bit(x >> 5, 0) == Bit(low >> 5, 0)
    ensures Bit(x >> 6, 0) == Bit(low >> 6, 0) && Bit(x >> 7, 0) == Bit(low >> 7, 0)
  {
  }

  /** The constant of the code is the CRC-32 polynomial. */
  lemma PolynomialOfConstant()
    ensures Word(POLYNOMIAL) == Polynomial()
  {
    LowestBits(POLYNOMIAL);
    LowestBits(POLYNOMIAL >> 8);
    LowestBits(POLYNOMIAL >> 16);
    LowestBits(POLYNOMIAL >> 24);
    forall i | 0 <= i < 32 ensures Bit(POLYNOMIAL, i) == Polynomial()[i] {
      BitInByte(POLYNOMIAL, i);
    }
  }

  // ---------- The code ----------

  lemma WordOfStep(c: bv32)
    ensures Word(if c & 1 == 1 then POLYNOMIAL ^ (c >> 1) else c >> 1) == ShiftStep(Word(c))
  {
    WordOfShift(c);
    if c & 1 == 1 {
      WordOfXor(POLYNOMIAL, c >> 1);
      PolynomialOfConstant();
    }
  }

  lemma {:induction false} StepsAtEnd(r: Bits, n: nat)
    requires |r| == 32
    ensures ShiftSteps(r, n + 1) == ShiftStep(ShiftSteps(r, n))
    decreases n
  {
    if n > 0 {
      StepsAtEnd(ShiftStep(r), n - 1);
    }
  }

  /** The entry of a byte: the byte as a word after eight steps. */
  function TableBits(b: byte): (r: Bits)
    ensures |r| == 32
  {
    ShiftSteps(Word(b as bv32), 8)
  }

  ghost predicate IsTable(table: seq<bv32>) {
    |table| == 256 && forall b: byte :: Word(table[b as int]) == TableBits(b)
  }

  lemma ByteOfIndex(b: byte, i: int)
    requires b as int == i
    ensures i as byte == b
  {
  }

  method LoadCrc32Table() returns (table: array<bv32>)
    ensures fresh(table) && IsTable(table[..])
  {
    table := new bv32[256];
    var i := 0;
    while i < 256
      invariant 0 <= i <= 256
      invariant forall b: byte :: b as int < i ==> Word(table[b as int]) == TableBits(b)
    {
      table[i] := TableEntry(i as byte);
      forall b: byte | b as int == i ensures Word(table[b as int]) == TableBits(b) {
        ByteOfIndex(b, i);
      }
      i := i + 1;
    }
  }

  /** The inner loop of `LoadCrc32Table`. */
  method TableEntry(b: byte) returns (c: bv32)
    ensures Word(c) == TableBits(b)
  {
    c := b as bv32;
    var j := 0;
    while j < 8
      invariant 0 <= j <= 8
      invariant Word(c) == ShiftSteps(Word(b as bv32), j)
    {
      WordOfStep(c);
      StepsAtEnd(Word(b as bv32), j);
      if c & 1 == 1 {
        c := POLYNOMIAL ^ (c >> 1);
      } else {
        c := c >> 1;
      }
      j := j + 1;
    }
  }

  lemma FeedOfByte(c: bv32, u: byte)
    ensures Feed(Word(c), BitsOf(u)) == ShiftSteps(Word(c ^ (u as bv32)), 8)
  {
    FeedOfWord(Word(c), BitsOf(u));
    WordOfByte(u);
    WordOfXor(c, u as bv32);
  }

  lemma EightSteps(x: bv32, rest: bv32)
    requires rest == x >> 8
    ensures ShiftSteps(Word(x), 8) == Xor(TableBits(LowByte(x)), Word(rest))
  {
    var low, high := Word(LowByte(x) as bv32), Word(rest);
    LowByteBits(x);
    WordOfByte(LowByte(x));
    WordOfByteShift(x);
    assert Word(x) == Xor(low, Up(high, 8));
    StepsMove(low, high, 8);
  }

  lemma ByteShiftedOut(c: bv32, u: byte, x: bv32)
    requires x == c ^ (u as bv32)
    ensures c >> 8 == x >> 8
  {
  }

  lemma EightStepsOfByte(c: bv32, u: byte, x: bv32)
    requires x == c ^ (u as bv32)
    ensures ShiftSteps(Word(x), 8) == Xor(TableBits(LowByte(x)), Word(c >> 8))
  {
    ByteShiftedOut(c, u, x);
    EightSteps(x, c >> 8);
  }

  lemma FeedAndShift(c: bv32, u: byte)
    ensures Feed(Word(c), BitsOf(u)) == Xor(TableBits(LowByte(c ^ (u as bv32))), Word(c >> 8))
  {
    FeedOfByte(c, u);
    EightStepsOfByte(c, u, c ^ (u as bv32));
  }

  /** One look-up in the table does what the eight bits of a byte do. */
  method LookUp(table: array<bv32>, c: bv32, u: byte) returns (next: bv32)
    requires IsTable(table[..])
    ensures Word(next) == Feed(Word(c), BitsOf(u))
  {
    FeedAndShift(c, u);
    var entry := table[LowByte(c ^ (u as bv32)) as int];
    next := Mix(entry, c >> 8);
  }

  method Mix(entry: bv32, rest: bv32) returns (r: bv32)
    ensures Word(r) == Xor(Word(entry), Word(rest))
  {
    WordOfXor(entry, rest);
    r := entry ^ rest;
  }

  /** The checksum of a message that goes on from the checksum `start`. */
  function Crc(start: Bits, bytes: seq<byte>): (r: Bits)
    requires |start| == 32
    ensures |r| == 32
  {
    Complement(Feed(Complement(start), MessageBits(bytes)))
  }

  function Complement(r: Bits): (s: Bits)
    ensures |s| == |r| && forall i :: 0 <= i < |r| ==> s[i] == !r[i]
  {
    seq(|r|, i requires 0 <= i < |r| => !r[i])
  }

  lemma WordOfComplement(c: bv32)
    ensures Word(c ^ ONES) == Complement(Word(c))
  {
    WordOfXor(c, ONES);
    forall i | 0 <= i < 32 ensures Word(c ^ ONES)[i] == !Word(c)[i] {
      AllOnes(i);
    }
  }

  /** The checksum by table is the checksum bit by bit. */
  method UpdateCrc32(start: bv32, buf: array<byte>) returns (r: bv32)
    ensures Word(r) == Crc(Word(start), buf[..])
  {
    var table := LoadCrc32Table();
    var c := start ^ ONES;
    WordOfComplement(start);
    var i := 0;
    while i < buf.Length
      invariant 0 <= i <= buf.Length && IsTable(table[..])
      invariant Word(c) == Feed(Complement(Word(start)), MessageBits(buf[..i]))
    {
      var u := buf[i];
      assert buf[..i + 1] == buf[..i] + [u];
      FeedOneMore(Complement(Word(start)), buf[..i], u);
      c := LookUp(table, c, u);
      i := i + 1;
    }
    WordOfComplement(c);
    assert buf[..buf.Length] == buf[..];
    r := c ^ ONES;
  }

  lemma FeedOneMore(r: Bits, bytes: seq<byte>, u: byte)
    requires |r| == 32
    ensures Feed(r, MessageBits(bytes + [u])) == Feed(Feed(r, MessageBits(bytes)), BitsOf(u))
  {
    MessageOfConcat(bytes, [u]);
    assert MessageBits([u]) == BitsOf(u) + MessageBits([]) == BitsOf(u);
    FeedOfConcat(r, MessageBits(bytes), BitsOf(u));
  }

  // ---------- What the checksum promises ----------

  lemma {:induction false} MessageOfConcat(a: seq<byte>, b: seq<byte>)
    ensures MessageBits(a + b) == MessageBits(a) + MessageBits(b)
  {
    if a == [] {
      assert a + b == b;
    } else {
      assert (a + b)[1..] == a[1..] + b;
      MessageOfConcat(a[1..], b);
    }
  }

  /** Updating with `a` and then with `b` is one pass over `a + b`. */
  lemma UpdateInParts(start: Bits, a: seq<byte>, b: seq<byte>)
    requires |start| == 32
    ensures Crc(Crc(start, a), b) == Crc(start, a + b)
  {
    MessageOfConcat(a, b);
    FeedOfConcat(Complement(start), MessageBits(a), MessageBits(b));
    var r := Feed(Complement(start), MessageBits(a));
    assert Complement(Complement(r)) == r;
  }

  lemma BitsOfIsInjective(u: byte, v: byte)
    requires BitsOf(u) == BitsOf(v)
    ensures u == v
  {
    WordOfByte(u);
    WordOfByte(v);
    WordIsInjective(u as bv32, v as bv32);
  }

  lemma {:induction false} MessageIsInjective(a: seq<byte>, b: seq<byte>)
    requires |a| == |b| && MessageBits(a) == MessageBits(b)
    ensures a == b
  {
    if a != [] {
      assert BitsOf(a[0]) == MessageBits(a)[..8] == MessageBits(b)[..8] == BitsOf(b[0]);
      assert MessageBits(a[1..]) == MessageBits(a)[8..] == MessageBits(b)[8..] == MessageBits(b[1..]);
      BitsOfIsInjective(a[0], b[0]);
      MessageIsInjective(a[1..], b[1..]);
      assert a == [a[0]] + a[1..] && b == [b[0]] + b[1..];
    }
  }

  lemma {:induction false} MessageLength(a: seq<byte>)
    ensures |MessageBits(a)| == 8 * |a|
  {
    if a != [] {
      MessageLength(a[1..]);
    }
  }

  /** Two messages of one length that differ, but only within four consecutive
      bytes, always have different checksums. */
  lemma WindowIsNoticed(start: Bits, before: seq<byte>, a: seq<byte>, b: seq<byte>, after: seq<byte>)
    requires |start| == 32 && |a| == |b| <= 4 && a != b
    ensures Crc(start, before + a + after) != Crc(start, before + b + after)
  {
    MessageLength(a);
    MessageLength(b);
    if MessageBits(a) == MessageBits(b) {
      MessageIsInjective(a, b);
    }
    MessageOfParts(before, a, after);
    MessageOfParts(before, b, after);
    BurstIsNoticed(Complement(start), MessageBits(before), MessageBits(a), MessageBits(b), MessageBits(after));
    var r := Feed(Complement(start), MessageBits(before + a + after));
    var s := Feed(Complement(start), MessageBits(before + b + after));
    assert Complement(Complement(r)) == r && Complement(Complement(s)) == s;
  }

  lemma MessageOfParts(before: seq<byte>, word: seq<byte>, after: seq<byte>)
    ensures MessageBits(before + word + after) == MessageBits(before) + MessageBits(word) + MessageBits(after)
  {
    MessageOfConcat(before + word, after);
    MessageOfConcat(before, word);
  }
}
