/** IP prefixes (rtc_base/ip_address.cc): cutting an address off after a number of
    bits, and reading the length of a mask off its lowest set bit. */
module IpPrefix {

  import opened Words

  /** An address as words in host order; `Unspecified` is the address of no family. */
  datatype IPAddress = Unspecified | V4(word: bv32) | V6(words: seq<bv32>) {

    predicate Valid() {
      V6? ==> |words| == 4
    }

    predicate SameFamily(other: IPAddress) {
      V4? == other.V4? && V6? == other.V6?
    }

    /** The bits of the address, the most significant first. */
    function AddressBits(): (bits: seq<bool>)
      requires Valid()
    {
      match this
      case Unspecified => []
      case V4(word) => seq(32, p requires 0 <= p < 32 => Bit(word, 31 - p))
      case V6(words) => seq(128, p requires 0 <= p < 128 => Bit(words[p / 32], 31 - p % 32))
    }
  }

  /** Equal bits make equal addresses of a family. */
  lemma AddressIsItsBits(a: IPAddress, b: IPAddress)
    requires a.Valid() && b.Valid() && a.SameFamily(b) && a.AddressBits() == b.AddressBits()
    ensures a == b
  {
    if a.V4? {
      forall i | 0 <= i < 32 ensures Bit(a.word, i) == Bit(b.word, i) {
        assert a.AddressBits()[31 - i] == b.AddressBits()[31 - i];
      }
      assert Word(a.word) == Word(b.word);
      WordIsInjective(a.word, b.word);
    } else if a.V6? {
      forall k | 0 <= k < 4 ensures a.words[k] == b.words[k] {
        forall i | 0 <= i < 32 ensures Bit(a.words[k], i) == Bit(b.words[k], i) {
          assert a.AddressBits()[32 * k + (31 - i)] == b.AddressBits()[32 * k + (31 - i)];
        }
        assert Word(a.words[k]) == Word(b.words[k]);
        WordIsInjective(a.words[k], b.words[k]);
      }
    }
  }

  // ---------- Cutting off ----------

  function Cut(bits: seq<bool>, n: int): (r: seq<bool>)
    ensures |r| == |bits|
  {
    seq(|bits|, p requires 0 <= p < |bits| => p < n && bits[p])
  }

  /** `r` is `ip` cut off: of the same family, with the first `length` bits of `ip`
      and zeros after them; no address at all if the length is negative. */
  ghost predicate IsTruncated(ip: IPAddress, length: int, r: IPAddress)
    requires ip.Valid()
  {
    if length < 0 then r == Unspecified
    else r.Valid() && ip.SameFamily(r) && r.AddressBits() == Cut(ip.AddressBits(), length)
  }

  lemma TruncatedIsUnique(ip: IPAddress, length: int, a: IPAddress, b: IPAddress)
    requires ip.Valid() && IsTruncated(ip, length, a) && IsTruncated(ip, length, b)
    ensures a == b
  {
    if length >= 0 {
      AddressIsItsBits(a, b);
    }
  }

  /** Cutting off after `m` and then after `n` bits is cutting off after the fewer. */
  lemma TruncatedTwice(ip: IPAddress, m: nat, n: nat, a: IPAddress, b: IPAddress)
    requires ip.Valid() && IsTruncated(ip, m, a) && IsTruncated(a, n, b)
    ensures IsTruncated(ip, if m <= n then m else n, b)
  {
    assert Cut(Cut(ip.AddressBits(), m), n) == Cut(ip.AddressBits(), if m <= n then m else n);
  }

  /** The word `r` is the word `w` cut off after `n` bits. */
  ghost predicate IsCutWord(w: bv32, n: int, r: bv32) {
    forall i :: 0 <= i < 32 ==> Bit(r, i) == (31 - i < n && Bit(w, i))
  }

  lemma ShiftedOnesDouble(k: nat, mask: bv32, double: bv32)
    requires k < 32 && mask == ONES << k && double == ONES << (k + 1)
    ensures double == mask << 1
  {
  }

  lemma {:induction false} BitOfShiftedOnes(k: nat, mask: bv32, i: nat)
    requires k <= 32 && mask == ONES << k && i < 32
    ensures Bit(mask, i) <==> k <= i
    decreases k
  {
    if k == 0 {
      ShiftedByNothing(mask);
      AllOnes(i);
    } else {
      var half := ONES << (k - 1);
      ShiftedOnesDouble(k - 1, half, mask);
      BitOfDouble(half, mask, i);
      if i > 0 {
        BitOfShiftedOnes(k - 1, half, i - 1);
      }
    }
  }

  lemma ShiftedByNothing(mask: bv32)
    requires mask == ONES << 0
    ensures mask == ONES
  {
  }

  /** The mask of the source keeps the first `n` bits of a word. */
  lemma MaskCuts(w: bv32, n: nat, mask: bv32, r: bv32)
    requires n <= 32 && mask == ONES << (32 - n) && IsAnd(w, mask, r)
    ensures IsCutWord(w, n, r)
  {
    forall i | 0 <= i < 32 ensures Bit(r, i) == (31 - i < n && Bit(w, i)) {
      BitOfAnd(w, mask, r, i);
      BitOfShiftedOnes(32 - n, mask, i);
    }
  }

  lemma ZeroIsCut(w: bv32, n: int)
    requires n <= 0
    ensures IsCutWord(w, n, 0)
  {
    forall i | 0 <= i < 32 ensures !Bit(0, i) {
      BitOfZero(i);
    }
  }

  method TruncateIP(ip: IPAddress, length: int) returns (r: IPAddress)
    requires ip.Valid()
    ensures IsTruncated(ip, length, r)
  {
    if length < 0 {
      return Unspecified;
    }
    match ip {
      case Unspecified => return Unspecified;
      case V4(word) =>
        var cut := TruncateV4(word, length);
        r := V4(cut);
      case V6(words) =>
        var cut := TruncateV6(words, length);
        r := V6(cut);
        forall p | 0 <= p < 128 ensures r.AddressBits()[p] == (p < length && ip.AddressBits()[p]) {
          assert IsCutWord(words[p / 32], length - 32 * (p / 32), cut[p / 32]);
        }
    }
  }

  method TruncateV4(word: bv32, length: nat) returns (r: bv32)
    ensures IsCutWord(word, length, r)
  {
    if length > 31 {
      return word;
    }
    if length == 0 {
      ZeroIsCut(word, 0);
      return 0;
    }
    var mask := ONES << (32 - length);
    r := MaskWord(word, length, mask);
  }

  method MaskWord(w: bv32, ghost n: nat, mask: bv32) returns (r: bv32)
    requires n <= 32 && mask == ONES << (32 - n)
    ensures IsCutWord(w, n, r)
  {
    r := w & mask;
    MaskCuts(w, n, mask, r);
  }

  method TruncateV6(words: seq<bv32>, length: nat) returns (r: seq<bv32>)
    requires |words| == 4
    ensures |r| == 4 && forall j :: 0 <= j < 4 ==> IsCutWord(words[j], length - 32 * j, r[j])
  {
    if length > 127 {
      return words;
    }
    if length == 0 {
      forall j | 0 <= j < 4 ensures IsCutWord(words[j], -32 * j, 0) {
        ZeroIsCut(words[j], -32 * j);
      }
      return [0, 0, 0, 0];
    }
    var position := length / 32;
    var innerLength := 32 - (length - position * 32);
    var innerMask := ONES << innerLength;
    var v6AsInts := new bv32[4](i requires 0 <= i < 4 => words[i]);
    var i := 0;
    while i < 4
      invariant 0 <= i <= 4
      invariant forall j :: 0 <= j < i ==> IsCutWord(words[j], length - 32 * j, v6AsInts[j])
      invariant forall j :: i <= j < 4 ==> v6AsInts[j] == words[j]
    {
      if i == position {
        v6AsInts[i] := MaskWord(words[i], length - 32 * i, innerMask);
      } else if i > position {
        v6AsInts[i] := 0;
        ZeroIsCut(words[i], length - 32 * i);
      }
      i := i + 1;
    }
    r := v6AsInts[..];
  }

  // ---------- Counting ----------

  function TrailingZeros(w: bv32): (n: nat)
    requires w != 0
    decreases w
  {
    if w & 1 == 1 then 0 else 1 + TrailingZeros(w >> 1)
  }

  /** The lowest set bit alone. */
  function Lowest(w: bv32): bv32 {
    w & (!w + 1)
  }

  predicate OneBit(x: bv32) {
    x != 0 && x & (x - 1) == 0
  }

  /** What the tests of the bit-twiddling make of a word. */
  function Zeroes(x: bv32): int {
    32 - (if x != 0 then 1 else 0)
       - (if x & 0x0000FFFF != 0 then 16 else 0)
       - (if x & 0x00FF00FF != 0 then 8 else 0)
       - (if x & 0x0F0F0F0F != 0 then 4 else 0)
       - (if x & 0x33333333 != 0 then 2 else 0)
       - (if x & 0x55555555 != 0 then 1 else 0)
  }

  lemma LowestIsOneBit(w: bv32, lowest: bv32)
    requires w != 0 && lowest == Lowest(w)
    ensures OneBit(lowest) && lowest & 1 == w & 1
  {
  }

  lemma LowestOfEven(w: bv32)
    requires w & 1 == 0
    ensures Lowest(w >> 1) == Lowest(w) >> 1
  {
  }

  lemma ZeroesOfHalf(x: bv32)
    requires OneBit(x)
    ensures x & 1 == 1 ==> Zeroes(x) == 0
    ensures x & 1 == 0 ==> OneBit(x >> 1) && Zeroes(x) == Zeroes(x >> 1) + 1
  {
  }

  /** The tests count the trailing zeros of any word but zero. */
  lemma {:induction false} ZeroesOfLowest(w: bv32)
    requires w != 0
    ensures Zeroes(Lowest(w)) == TrailingZeros(w)
    decreases w
  {
    LowestIsOneBit(w, Lowest(w));
    ZeroesOfHalf(Lowest(w));
    if w & 1 == 0 {
      LowestOfEven(w);
      ZeroesOfLowest(w >> 1);
    }
  }

  lemma {:induction false} TrailingZerosAreBits(w: bv32, i: nat)
    requires w != 0
    ensures Bit(w, TrailingZeros(w))
    ensures i < TrailingZeros(w) ==> !Bit(w, i)
    decreases w
  {
    if w & 1 != 1 {
      TrailingZerosAreBits(w >> 1, if i == 0 then 0 else i - 1);
    }
  }

  /** The length of the mask in a word: up to and with the last bit that is set. */
  function CountWord(w: bv32): int {
    if w == 0 then 0 else 32 - TrailingZeros(w)
  }

  function CountFrom(words: seq<bv32>): int {
    if words == [] then 0
    else if words[0] == ONES then 32 + CountFrom(words[1..])
    else CountWord(words[0])
  }

  function Count(mask: IPAddress): int {
    match mask
    case Unspecified => 0
    case V4(word) => CountWord(word)
    case V6(words) => CountFrom(words)
  }

  method CountIPMaskBits(mask: IPAddress) returns (count: int)
    requires mask.Valid()
    ensures count == Count(mask)
  {
    var wordToCount, bits := 0, 0;
    match mask {
      case Unspecified => return 0;
      case V4(word) => wordToCount := word;
      case V6(words) =>
        var i := 0;
        while i < 4 && words[i] == ONES
          invariant 0 <= i <= 4 && CountFrom(words) == 32 * i + CountFrom(words[i..])
        {
          i := i + 1;
        }
        if i < 4 {
          wordToCount := words[i];
        }
        bits := i * 32;
    }
    if wordToCount == 0 {
      return bits;
    }
    var zeroes := CountTrailingZeros(wordToCount);
    count := bits + (32 - zeroes);
  }

  method CountTrailingZeros(word: bv32) returns (zeroes: int)
    requires word != 0
    ensures zeroes == TrailingZeros(word)
  {
    ZeroesOfLowest(word);
    var lowest := word & (!word + 1);
    zeroes := 32;
    if lowest != 0 { zeroes := zeroes - 1; }
    if lowest & 0x0000FFFF != 0 { zeroes := zeroes - 16; }
    if lowest & 0x00FF00FF != 0 { zeroes := zeroes - 8; }
    if lowest & 0x0F0F0F0F != 0 { zeroes := zeroes - 4; }
    if lowest & 0x33333333 != 0 { zeroes := zeroes - 2; }
    if lowest & 0x55555555 != 0 { zeroes := zeroes - 1; }
  }

  // ---------- The length of a prefix comes back ----------

  /** A word of ones, cut off after `n` bits, counts as `n`, and is full only then. */
  lemma CountOfCutOnes(w: bv32, n: int)
    requires IsCutWord(ONES, n, w)
    ensures CountWord(w) == if n <= 0 then 0 else if n >= 32 then 32 else n
    ensures w == ONES <==> n >= 32
  {
    forall i | 0 <= i < 32 ensures Bit(w, i) == (31 - i < n) {
      AllOnes(i);
    }
    AllOnes(0);
    if n <= 0 {
      forall i | 0 <= i < 32 ensures !Bit(0, i) {
        BitOfZero(i);
      }
      assert Word(w) == Word(0);
      WordIsInjective(w, 0);
    } else {
      BitOfZero(31);
      var lowest := if n >= 32 then 0 else 32 - n;
      TrailingZerosAreBits(w, lowest);
      if TrailingZeros(w) >= 32 {
        BitsEnd(w, TrailingZeros(w));
      }
    }
    if n >= 32 {
      assert Word(w) == Word(ONES) by {
        forall i | 0 <= i < 32 ensures Bit(ONES, i) { AllOnes(i); }
      }
      WordIsInjective(w, ONES);
    }
  }

  function AllBits(v6: bool): (ones: IPAddress)
    ensures ones.Valid()
  {
    if v6 then V6([ONES, ONES, ONES, ONES]) else V4(ONES)
  }

  lemma WordsOfMask(v6: bool, n: nat, mask: IPAddress)
    requires IsTruncated(AllBits(v6), n, mask)
    ensures !v6 ==> IsCutWord(ONES, n, mask.word)
    ensures v6 ==> forall k :: 0 <= k < 4 ==> IsCutWord(ONES, n - 32 * k, mask.words[k])
  {
    var ones, bits := AllBits(v6).AddressBits(), mask.AddressBits();
    if v6 {
      forall k | 0 <= k < 4 ensures IsCutWord(ONES, n - 32 * k, mask.words[k]) {
        forall i | 0 <= i < 32 ensures Bit(mask.words[k], i) == (31 - i < n - 32 * k && Bit(ONES, i)) {
          assert bits[32 * k + (31 - i)] == (32 * k + (31 - i) < n && ones[32 * k + (31 - i)]);
        }
      }
    } else {
      forall i | 0 <= i < 32 ensures Bit(mask.word, i) == (31 - i < n && Bit(ONES, i)) {
        assert bits[31 - i] == (31 - i < n && ones[31 - i]);
      }
    }
  }

  lemma {:induction false} CountOfMaskWords(words: seq<bv32>, n: int, k: nat)
    requires |words| == 4 && k <= 4 && n <= 128
    requires forall j :: 0 <= j < 4 ==> IsCutWord(ONES, n - 32 * j, words[j])
    ensures CountFrom(words[k..]) == if n <= 32 * k then 0 else n - 32 * k
    decreases 4 - k
  {
    if k < 4 {
      assert words[k..][0] == words[k] && words[k..][1..] == words[k + 1..];
      CountOfCutOnes(words[k], n - 32 * k);
      CountOfMaskWords(words, n, k + 1);
    }
  }

  /** Counting the bits of the mask of any prefix length gives the length. */
  lemma CountOfPrefixMask(v6: bool, n: nat, mask: IPAddress)
    requires n <= (if v6 then 128 else 32) && IsTruncated(AllBits(v6), n, mask)
    ensures Count(mask) == n
  {
    WordsOfMask(v6, n, mask);
    if v6 {
      CountOfMaskWords(mask.words, n, 0);
      assert mask.words[0..] == mask.words;
    } else {
      CountOfCutOnes(mask.word, n);
    }
  }
}
