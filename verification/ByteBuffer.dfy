/** The serializer of rtc_base/byte_buffer.h and rtc_base/byte_buffer.cc: integers
    in network byte order, varints and strings, written and read back. */
module ByteBuffer {

  import opened Basics
  import opened Word64

  const TWO_TO_THE_64: nat := 0x1_0000_0000_0000_0000
  const MAX_VARINT_BYTES: nat := 10

  // ---------- Network byte order ----------

  /** The low `width` bytes of `value`, the most significant first. */
  function BigEndian(width: nat, value: nat): (bytes: seq<Byte>)
    ensures |bytes| == width
    decreases width
  {
    if width == 0 then [] else BigEndian(width - 1, value / 256) + [value % 256]
  }

  function FromBigEndian(bytes: seq<Byte>): nat {
    if bytes == [] then 0 else FromBigEndian(bytes[..|bytes| - 1]) * 256 + bytes[|bytes| - 1]
  }

  /** The first byte weighs most. */
  lemma {:induction false} HighByteFirst(bytes: seq<Byte>)
    requires bytes != []
    ensures FromBigEndian(bytes) == bytes[0] * Pow(256, |bytes| - 1) + FromBigEndian(bytes[1..])
  {
    var last := |bytes| - 1;
    if last > 0 {
      HighByteFirst(bytes[..last]);
      assert bytes[..last][1..] == bytes[1..][..last - 1];
      Carries(bytes[0], Pow(256, last - 1), FromBigEndian(bytes[1..][..last - 1]));
    }
  }

  lemma Carries(b: nat, p: nat, rest: nat)
    ensures (b * p + rest) * 256 == b * (256 * p) + rest * 256
  {
  }

  lemma {:induction false} BigEndianRoundTrip(width: nat, value: nat)
    ensures FromBigEndian(BigEndian(width, value)) == value % Pow(256, width)
    decreases width
  {
    if width > 0 {
      BigEndianRoundTrip(width - 1, value / 256);
      var bytes := BigEndian(width, value);
      assert bytes[..|bytes| - 1] == BigEndian(width - 1, value / 256);
      ModuloByBytes(value, Pow(256, width - 1));
    }
  }

  lemma ModuloByBytes(value: nat, p: nat)
    requires p > 0
    ensures value / 256 % p * 256 + value % 256 == value % (256 * p)
  {
    var q, r := value / 256 / p, value / 256 % p;
    assert value / 256 == q * p + r;
    assert value == q * (256 * p) + (r * 256 + value % 256);
    assert r * 256 + value % 256 < 256 * p;
    RemainderIs(value, 256 * p, q, r * 256 + value % 256);
  }

  lemma RemainderIs(value: nat, d: nat, q: nat, r: nat)
    requires value == q * d + r && r < d
    ensures value % d == r
  {
    var k: int := value / d - q;
    assert value == value / d * d + value % d;
    assert k * d == r - value % d;
    MultipleIsFar(k, d);
  }

  lemma MultipleIsFar(k: int, d: nat)
    ensures k > 0 ==> k * d >= d
    ensures k < 0 ==> k * d + d <= 0
  {
  }

  // ---------- Varints ----------

  /** Seven bits a byte, the lowest first; a byte of 128 or more goes on. */
  function EncodeVarint(value: nat): (bytes: seq<Byte>)
    ensures |bytes| > 0
  {
    if value < 0x80 then [value] else [value % 0x80 + 0x80] + EncodeVarint(value / 0x80)
  }

  function VarintValue(bytes: seq<Byte>): nat {
    if bytes == [] then 0 else bytes[0] % 0x80 + 0x80 * VarintValue(bytes[1..])
  }

  /** How many bytes go on before one does not. */
  function Lead(bytes: seq<Byte>): (n: nat)
    ensures n <= |bytes|
  {
    if bytes == [] || bytes[0] < 0x80 then 0 else 1 + Lead(bytes[1..])
  }

  /** The bytes begin with a varint of at most ten bytes. */
  predicate HasVarint(bytes: seq<Byte>) {
    Lead(bytes) < Min(|bytes|, MAX_VARINT_BYTES)
  }

  lemma {:induction false} VarintRoundTrip(value: nat, rest: seq<Byte>)
    ensures Lead(EncodeVarint(value) + rest) == |EncodeVarint(value)| - 1
    ensures VarintValue(EncodeVarint(value)) == value
  {
    var bytes := EncodeVarint(value);
    if value >= 0x80 {
      VarintRoundTrip(value / 0x80, rest);
      assert (bytes + rest)[1..] == bytes[1..] + rest;
      assert bytes[1..] == EncodeVarint(value / 0x80);
    }
  }

  /** `n` bytes are enough for a value exactly when it has at most `7 * n` bits. */
  lemma {:induction false} VarintLength(value: nat, n: nat)
    requires n > 0
    ensures |EncodeVarint(value)| <= n <==> value < Pow(0x80, n)
    decreases n
  {
    if n == 1 {
      assert Pow(0x80, 1) == 0x80 * Pow(0x80, 0);
    } else if value >= 0x80 {
      VarintLength(value / 0x80, n - 1);
    }
  }

  lemma TenBytesAreEnough(value: nat)
    requires value < TWO_TO_THE_64
    ensures |EncodeVarint(value)| <= MAX_VARINT_BYTES
  {
    VarintLength(value, 10);
    PowersOf128();
  }

  lemma PowersOf128()
    ensures Pow(0x80, 9) == 0x8000_0000_0000_0000 && Pow(0x80, 10) == 0x40_0000_0000_0000_0000
  {
    assert Pow(0x80, 3) == 0x20_0000;
    assert Pow(0x80, 6) == 0x400_0000_0000;
    assert Pow(0x80, 9) == 0x8000_0000_0000_0000;
  }

  /** No varint begins another one. */
  lemma PrefixFree(v: nat, w: nat)
    requires EncodeVarint(v) <= EncodeVarint(w)
    ensures v == w
  {
    var a, b := EncodeVarint(v), EncodeVarint(w);
    VarintRoundTrip(v, b[|a|..]);
    VarintRoundTrip(w, []);
    assert a + b[|a|..] == b == b + [];
    assert a == b;
    assert v == VarintValue(a) == w;
  }

  lemma {:induction false} VarintValueFits(bytes: seq<Byte>)
    ensures VarintValue(bytes) < Pow(0x80, |bytes|)
  {
    if bytes != [] {
      VarintValueFits(bytes[1..]);
    }
  }

  lemma {:induction false} VarintValueOfConcat(bytes: seq<Byte>, b: Byte)
    ensures VarintValue(bytes + [b]) == VarintValue(bytes) + Pow(0x80, |bytes|) * (b % 0x80)
  {
    if bytes == [] {
      assert (bytes + [b])[1..] == [];
    } else {
      assert (bytes + [b])[1..] == bytes[1..] + [b];
      VarintValueOfConcat(bytes[1..], b);
    }
  }

  /** Whatever varint is accepted, writing its value again takes no more bytes. */
  lemma ReencodingIsNoLonger(bytes: seq<Byte>)
    requires HasVarint(bytes)
    ensures |EncodeVarint(VarintValue(bytes[..Lead(bytes) + 1]) % TWO_TO_THE_64)| <= Lead(bytes) + 1
  {
    var varint := bytes[..Lead(bytes) + 1];
    VarintValueFits(varint);
    VarintLength(VarintValue(varint) % TWO_TO_THE_64, |varint|);
  }

  // ---------- Typed items ----------

  /** `Fixed` is an integer of 1, 2, 3, 4 or 8 bytes, `Chars` a string. */
  datatype Item = Fixed(width: nat, value: nat) | Varint(value: nat) | Chars(bytes: seq<Byte>) {

    /** What the type of the argument admits: 24-bit integers come as 32-bit ones. */
    predicate Valid() {
      match this
      case Fixed(width, value) => width in {1, 2, 3, 4, 8} && value < Pow(256, if width == 3 then 4 else width)
      case Varint(value) => value < TWO_TO_THE_64
      case Chars(_) => true
    }

    function Encode(): seq<Byte> {
      match this
      case Fixed(width, value) => BigEndian(width, value)
      case Varint(value) => EncodeVarint(value)
      case Chars(bytes) => bytes
    }

    /** How to read such an item. */
    function Kind(): Type {
      match this
      case Fixed(width, _) => FixedType(width)
      case Varint(_) => VarintType
      case Chars(bytes) => CharsType(|bytes|)
    }

    /** What is read back: of 24-bit integers the low 24 bits. */
    function Kept(): Item {
      match this
      case Fixed(width, value) => Fixed(width, value % Pow(256, width))
      case _ => this
    }
  }

  /** The ranges of the unsigned types that are written. */
  lemma ValidRanges(width: nat, value: nat)
    ensures Fixed(width, value).Valid() <==>
              || (width == 1 && value <= 0xFF)
              || (width == 2 && value <= 0xFFFF)
              || (width in {3, 4} && value <= 0xFFFF_FFFF)
              || (width == 8 && value <= 0xFFFF_FFFF_FFFF_FFFF)
  {
    assert Pow(256, 2) == 0x1_0000 && Pow(256, 3) == 0x100_0000;
    assert Pow(256, 4) == 0x1_0000_0000 && Pow(256, 6) == 0x1_0000_0000_0000;
    assert Pow(256, 8) == TWO_TO_THE_64;
  }

  datatype Type = FixedType(width: nat) | VarintType | CharsType(length: nat)

  function EncodeAll(items: seq<Item>): seq<Byte> {
    if items == [] then [] else items[0].Encode() + EncodeAll(items[1..])
  }

  /** What one read yields from the bytes that are left, and how many it takes; a
      varint that is not accepted is consumed as far as it was looked at. */
  function Decode(kind: Type, left: seq<Byte>): (r: (Option<Item>, nat))
    ensures r.1 <= |left|
  {
    match kind
    case FixedType(width) =>
      if width > |left| then (None, 0) else (Some(Fixed(width, FromBigEndian(left[..width]))), width)
    case VarintType =>
      if HasVarint(left) then (Some(Varint(VarintValue(left[..Lead(left) + 1]) % TWO_TO_THE_64)), Lead(left) + 1)
      else (None, Min(|left|, MAX_VARINT_BYTES))
    case CharsType(length) =>
      if length > |left| then (None, 0) else (Some(Chars(left[..length])), length)
  }

  /** Reads one item after the other; also what is left. */
  function DecodeAll(kinds: seq<Type>, left: seq<Byte>): (seq<Option<Item>>, seq<Byte>) {
    if kinds == [] then ([], left)
    else
      var (item, taken) := Decode(kinds[0], left);
      var (items, rest) := DecodeAll(kinds[1..], left[taken..]);
      ([item] + items, rest)
  }

  lemma ItemRoundTrip(item: Item, rest: seq<Byte>)
    requires item.Valid()
    ensures Decode(item.Kind(), item.Encode() + rest) == (Some(item.Kept()), |item.Encode()|)
  {
    var bytes := item.Encode();
    assert (bytes + rest)[..|bytes|] == bytes;
    match item
    case Fixed(width, value) => BigEndianRoundTrip(width, value);
    case Varint(value) =>
      VarintRoundTrip(value, rest);
      TenBytesAreEnough(value);
    case Chars(_) =>
  }

  function Kinds(items: seq<Item>): (kinds: seq<Type>)
    ensures |kinds| == |items|
  {
    seq(|items|, i requires 0 <= i < |items| => items[i].Kind())
  }

  /** Whatever is written in a row comes back, and nothing is left. */
  lemma {:induction false} RoundTrip(items: seq<Item>)
    requires forall i :: 0 <= i < |items| ==> items[i].Valid()
    ensures DecodeAll(Kinds(items), EncodeAll(items)).1 == []
    ensures DecodeAll(Kinds(items), EncodeAll(items)).0
            == seq(|items|, i requires 0 <= i < |items| => Some(items[i].Kept()))
  {
    if items != [] {
      var first, rest := items[0].Encode(), EncodeAll(items[1..]);
      ItemRoundTrip(items[0], rest);
      assert (first + rest)[|first|..] == rest;
      assert Kinds(items)[1..] == Kinds(items[1..]);
      RoundTrip(items[1..]);
    }
  }

  // ---------- The writer and the reader ----------

  class ByteBufferWriter {
    var buffer: seq<Byte>

    constructor ()
      ensures buffer == []
    {
      buffer := [];
    }

    method WriteBytes(bytes: seq<Byte>)
      modifies this
      ensures buffer == old(buffer) + bytes
    {
      buffer := buffer + bytes;
    }

    /** `WriteUInt8` to `WriteUInt64`. */
    method WriteUInt(width: nat, value: nat)
      requires Fixed(width, value).Valid()
      modifies this
      ensures buffer == old(buffer) + Fixed(width, value).Encode()
    {
      WriteBytes(BigEndian(width, value));
    }

    method WriteUVarint(value: nat)
      requires Varint(value).Valid()
      modifies this
      ensures buffer == old(buffer) + Varint(value).Encode()
    {
      var val := value;
      ghost var written: seq<Byte> := [];
      while val >= 0x80
        invariant buffer == old(buffer) + written && EncodeVarint(value) == written + EncodeVarint(val)
      {
        WriteBytes([val % 0x80 + 0x80]);
        written := written + [val % 0x80 + 0x80];
        val := val / 0x80;
      }
      WriteBytes([val]);
    }

    method WriteItem(item: Item)
      requires item.Valid()
      modifies this
      ensures buffer == old(buffer) + item.Encode()
    {
      match item {
        case Fixed(width, value) => WriteUInt(width, value);
        case Varint(value) => WriteUVarint(value);
        case Chars(bytes) => WriteBytes(bytes);
      }
    }
  }

  class ByteBufferReader {
    const bytes: seq<Byte>
    var start: nat

    ghost predicate Valid()
      reads this
    {
      start <= |bytes|
    }

    ghost function Left(): seq<Byte>
      requires Valid()
      reads this
    {
      bytes[start..]
    }

    constructor (bytes: seq<Byte>)
      ensures Valid() && Left() == bytes
    {
      this.bytes, start := bytes, 0;
    }

    method ReadBytes(length: nat) returns (read: Option<seq<Byte>>)
      requires Valid()
      modifies this
      ensures Valid()
      ensures length > |old(Left())| ==> read == None && Left() == old(Left())
      ensures length <= |old(Left())| ==> read == Some(old(Left())[..length]) && Left() == old(Left())[length..]
    {
      if length > |bytes| - start {
        return None;
      }
      read := Some(bytes[start..start + length]);
      assert bytes[start..start + length] == bytes[start..][..length];
      start := start + length;
    }

    /** `ReadUInt8` to `ReadUInt64`. */
    method ReadUInt(width: nat) returns (item: Option<Item>)
      requires Valid()
      modifies this
      ensures Valid() && item == Decode(FixedType(width), old(Left())).0
      ensures Left() == old(Left())[Decode(FixedType(width), old(Left())).1..]
    {
      var read := ReadBytes(width);
      item := if read.None? then None else Some(Fixed(width, FromBigEndian(read.value)));
    }

    /** The byte at `k` of what was left once. */
    method ReadByte(ghost left: seq<Byte>, ghost k: nat) returns (byte: Option<Byte>)
      requires Valid() && k <= |left| && Left() == left[k..]
      modifies this
      ensures Valid() && (byte.None? <==> k == |left|)
      ensures byte.None? ==> Left() == left[k..]
      ensures byte.Some? ==> byte.value == left[k] && Left() == left[k + 1..]
    {
      var read := ReadBytes(1);
      if read.None? {
        return None;
      }
      byte := Some(read.value[0]);
    }

    /** Reads one byte, and puts its seven bits behind those of `v`. */
    method ReadSevenBits(ghost left: seq<Byte>, ghost k: nat, i: bv64, v: bv64, digits: nat)
      returns (read: Option<Byte>, next: bv64)
      requires Valid() && k <= |left| && Left() == left[k..]
      requires k < MAX_VARINT_BYTES <= digits && i == Sevens(k) < 64 && StandsFor(v, left[..k], digits)
      modifies this
      ensures Valid() && (read.None? <==> k == |left|)
      ensures read.None? ==> Left() == left[k..]
      ensures read.Some? ==>
                read.value == left[k] && Left() == left[k + 1..] && StandsFor(next, left[..k + 1], digits)
    {
      next := v;
      read := ReadByte(left, k);
      if read.Some? {
        next := OrShifted(left[..k], i, v, read.value, digits);
        assert left[..k + 1] == left[..k] + [read.value];
      }
    }

    method ReadUVarint() returns (item: Option<Item>)
      requires Valid()
      modifies this
      ensures Valid() && item == Decode(VarintType, old(Left())).0
      ensures Left() == old(Left())[Decode(VarintType, old(Left())).1..]
    {
      ghost var left := Left();
      ghost var k := 0;
      var v: bv64, i: bv64 := 0, 0;
      var digits := DigitsOfWord();
      NothingRead(digits);
      while i < 64
        invariant k <= 10 && k <= |left| && i == Sevens(k) && Valid() && Left() == left[k..]
        invariant k <= Lead(left) && StandsFor(v, left[..k], digits)
        decreases 10 - k
      {
        SevensUpTo70(k);
        VarintEnds(left, k);
        var read;
        read, v := ReadSevenBits(left, k, i, v, digits);
        if read.None? {
          return None;
        }
        i, k := i + 7, k + 1;
        if read.value < 0x80 {
          return Some(Varint(Number(v, digits)));
        }
      }
      SevensUpTo70(k);
      NoVarint(left, k);
      item := None;
    }

    method ReadItem(kind: Type) returns (item: Option<Item>)
      requires Valid()
      modifies this
      ensures Valid() && item == Decode(kind, old(Left())).0
      ensures Left() == old(Left())[Decode(kind, old(Left())).1..]
    {
      match kind {
        case FixedType(width) =>
          item := ReadUInt(width);
        case VarintType =>
          item := ReadUVarint();
        case CharsType(length) =>
          var read := ReadBytes(length);
          item := if read.None? then None else Some(Chars(read.value));
      }
    }
  }

  lemma {:induction false} LeadUnfolds(bytes: seq<Byte>, k: nat)
    requires k <= Lead(bytes)
    ensures k < |bytes| ==> (bytes[k] >= 0x80 <==> k < Lead(bytes))
    ensures k == |bytes| ==> k == Lead(bytes)
  {
    if k > 0 {
      LeadUnfolds(bytes[1..], k - 1);
    }
  }

  /** Adding below a shifted number commutes with cutting it off. */
  lemma CutOffShifted(v: nat, p: nat, q: nat, b: nat)
    requires v < p && q > 0
    ensures (p * b) % (p * q) == p * (b % q)
    ensures (v + p * b) % (p * q) == v + (p * b) % (p * q) < p * q
  {
    var d, m := b / q, b % q;
    assert p * b == d * (p * q) + p * m by {
      assert b == d * q + m;
      assert p * (d * q + m) == d * (p * q) + p * m;
    }
    assert p * m <= p * (q - 1) == p * q - p by {
      NatTimes(p, m, q - 1);
    }
    RemainderIs(p * b, p * q, d, p * m);
    RemainderIs(v + p * b, p * q, d, v + p * m);
  }

  lemma NatTimes(p: nat, a: nat, b: nat)
    requires a <= b
    ensures p * a <= p * b
  {
  }

  lemma {:induction false} PowAdd(b: nat, m: nat, n: nat)
    ensures Pow(b, m) * Pow(b, n) == Pow(b, m + n)
    decreases m
  {
    if m > 0 {
      PowAdd(b, m - 1, n);
      assert Pow(b, m) * Pow(b, n) == b * (Pow(b, m - 1) * Pow(b, n));
    }
  }

  /** What `v` holds after the bytes of a varint, with no bit set beyond them. */
  ghost predicate StandsFor(v: bv64, bytes: seq<Byte>, digits: nat) {
    Number(v, digits) == VarintValue(bytes) % TWO_TO_THE_64 && Below(Down, 0, v, |bytes|)
  }

  /** With `k` bytes read that all go on: the varint ends at the next one, or nowhere
      if there is none. */
  lemma VarintEnds(left: seq<Byte>, k: nat)
    requires k <= |left| && k < MAX_VARINT_BYTES && k <= Lead(left)
    ensures k < |left| && left[k] >= 0x80 ==> k + 1 <= Lead(left)
    ensures k < |left| && left[k] < 0x80 ==>
              Decode(VarintType, left) == (Some(Varint(VarintValue(left[..k + 1]) % TWO_TO_THE_64)), k + 1)
    ensures k == |left| ==> Decode(VarintType, left) == (None, k)
  {
    LeadUnfolds(left, k);
  }

  lemma NoVarint(left: seq<Byte>, k: nat)
    requires k <= |left| && k == MAX_VARINT_BYTES && k <= Lead(left)
    ensures Decode(VarintType, left) == (None, k)
  {
  }

  lemma NothingRead(digits: nat)
    ensures StandsFor(0, [], digits)
  {
    NoDigits(Value, Low, Down, 0, digits);
  }

  /** `v |= (static_cast<uint64_t>(byte) & 0x7F) << i`. */
  method OrShifted(ghost before: seq<Byte>, i: bv64, v: bv64, byte: Byte, ghost digits: nat) returns (r: bv64)
    requires i < 64 && |before| < MAX_VARINT_BYTES <= digits && i == Sevens(|before|) && StandsFor(v, before, digits)
    ensures StandsFor(r, before + [byte], digits)
  {
    var c := ToChar(byte);
    r := v | (((c as bv64) & 0x7F) << i);
    OrShiftedAdds(c, |before|, i, v, r, digits);
    NextNumber(before, byte, Number(v, digits), Number(r, digits));
  }

  lemma PowersPair(k: nat)
    requires k < MAX_VARINT_BYTES
    ensures Pow(0x80, k) * (2 * Pow(0x80, 9 - k)) == TWO_TO_THE_64
  {
    PowAdd(0x80, k, 9 - k);
    PowersOf128();
  }

  lemma NextNumber(before: seq<Byte>, byte: Byte, number: nat, next: nat)
    requires |before| < MAX_VARINT_BYTES && number == VarintValue(before) % TWO_TO_THE_64
    requires next == number + Pow(0x80, |before|) * (byte % (if |before| < 9 then 0x80 else 2))
    ensures next == VarintValue(before + [byte]) % TWO_TO_THE_64
  {
    var k := |before|;
    var p, q := Pow(0x80, k), 2 * Pow(0x80, 9 - k);
    PowersPair(k);
    VarintValueFits(before);
    VarintValueOfConcat(before, byte);
    CutOffSum(VarintValue(before), p, q, byte % 0x80, TWO_TO_THE_64);
    LastDigitFits(byte, k, q);
  }

  lemma CutOffSum(v: nat, p: nat, q: nat, b: nat, m: nat)
    requires v < p && q > 0 && m == p * q && m > 0
    ensures (v + p * b) % m == v % m + p * (b % q)
  {
    CutOffShifted(v, p, q, b);
    CutOffShifted(v, p, q, 0);
  }

  /** Of the tenth byte of a varint only one bit fits, of those before all seven. */
  lemma LastDigitFits(byte: Byte, k: nat, q: nat)
    requires k < MAX_VARINT_BYTES && q == 2 * Pow(0x80, 9 - k)
    ensures byte % 0x80 % q == byte % (if k < 9 then 0x80 else 2)
  {
    if k < 9 {
      assert q == 0x100 * Pow(0x80, 8 - k);
      assert 0x100 * Pow(0x80, 8 - k) >= 0x100;
      RemainderIs(byte % 0x80, q, 0, byte % 0x80);
    }
  }

  // ---------- Both together ----------

  /** Writes a list of items into a buffer and reads it back. */
  method WriteAndRead(items: seq<Item>) returns (read: seq<Option<Item>>, rest: seq<Byte>)
    requires forall i :: 0 <= i < |items| ==> items[i].Valid()
    ensures rest == [] && |read| == |items|
    ensures forall i :: 0 <= i < |items| ==> read[i] == Some(items[i].Kept())
  {
    var bytes := WriteAll(items);
    read, rest := ReadAll(bytes, Kinds(items));
    RoundTrip(items);
  }

  method WriteAll(items: seq<Item>) returns (bytes: seq<Byte>)
    requires forall i :: 0 <= i < |items| ==> items[i].Valid()
    ensures bytes == EncodeAll(items)
  {
    var writer := new ByteBufferWriter();
    for i := 0 to |items|
      invariant writer.buffer + EncodeAll(items[i..]) == EncodeAll(items)
    {
      EncodeNext(writer.buffer, items, i);
      writer.WriteItem(items[i]);
    }
    bytes := writer.buffer;
    assert bytes + [] == bytes;
  }

  lemma EncodeNext(before: seq<Byte>, items: seq<Item>, i: nat)
    requires i < |items|
    ensures before + EncodeAll(items[i..]) == before + items[i].Encode() + EncodeAll(items[i + 1..])
  {
    assert items[i..][1..] == items[i + 1..];
  }

  /** Reads one item of each kind in turn. */
  method ReadAll(bytes: seq<Byte>, kinds: seq<Type>) returns (read: seq<Option<Item>>, rest: seq<Byte>)
    ensures (read, rest) == DecodeAll(kinds, bytes)
  {
    var reader := new ByteBufferReader(bytes);
    read := [];
    assert kinds[0..] == kinds && [] + DecodeAll(kinds, bytes).0 == DecodeAll(kinds, bytes).0;
    for i := 0 to |kinds|
      invariant reader.Valid() && fresh(reader)
      invariant var d := DecodeAll(kinds[i..], reader.Left());
                (read + d.0, d.1) == DecodeAll(kinds, bytes)
    {
      ghost var d := DecodeAll(kinds[i..], reader.Left());
      assert kinds[i..][1..] == kinds[i + 1..];
      var item := reader.ReadItem(kinds[i]);
      ghost var more := DecodeAll(kinds[i + 1..], reader.Left());
      assert d == ([item] + more.0, more.1);
      assert read + ([item] + more.0) == (read + [item]) + more.0;
      read := read + [item];
    }
    rest := reader.bytes[reader.start..];
    assert read + [] == read;
  }
}
