/** Hexadecimal text with a delimiter (rtc_base/string_encode.cc) and certificate
    fingerprints written with it (rtc_base/ssl_fingerprint.cc). */
module Fingerprint {

  import opened Basics
  import DtlsSpec

  /** The delimiter that means none. */
  const NO_DELIMITER: char := 0 as char
  const HEX: string := "0123456789abcdef"
  const MAX_DIGEST_SIZE: nat := 64

  // ---------- Digits ----------

  function HexDigit(value: nat): char
    requires value < 16
  {
    HEX[value]
  }

  function HexValue(c: char): Option<nat> {
    if '0' <= c <= '9' then Some(c as int - '0' as int)
    else if 'A' <= c <= 'F' then Some(c as int - 'A' as int + 10)
    else if 'a' <= c <= 'f' then Some(c as int - 'a' as int + 10)
    else None
  }

  /** Digits are in lower case, and in capitals for a fingerprint. */
  lemma DigitCase(value: nat)
    requires value < 16
    ensures !('A' <= HexDigit(value) <= 'Z') && !('a' <= Upper(HexDigit(value)) <= 'z')
  {
  }

  lemma DigitRoundTrip(value: nat)
    requires value < 16
    ensures HexValue(HexDigit(value)) == Some(value) == HexValue(Upper(HexDigit(value)))
  {
  }

  // ---------- What an encoding is ----------

  /** `s` is `bytes` in hexadecimal: two digits a byte in either case, with the
      delimiter, if there is one, between them. */
  ghost predicate IsEncoding(s: string, bytes: seq<Byte>, delimiter: char)
    decreases |bytes|
  {
    if bytes == [] then s == []
    else
      && |s| >= 2 && HexValue(s[0]) == Some(bytes[0] / 16) && HexValue(s[1]) == Some(bytes[0] % 16)
      && if |bytes| == 1 then |s| == 2
         else if delimiter == NO_DELIMITER then IsEncoding(s[2..], bytes[1..], delimiter)
         else |s| >= 3 && s[2] == delimiter && IsEncoding(s[3..], bytes[1..], delimiter)
  }

  function EncodedLength(length: nat, delimiter: char): nat {
    if delimiter != NO_DELIMITER && length > 0 then length * 3 - 1 else length * 2
  }

  /** Room that decoding takes to be needed. */
  function Needed(length: nat, delimiter: char): nat {
    if delimiter != NO_DELIMITER then (length + 1) / 3 else length / 2
  }

  lemma {:induction false} EncodingLength(s: string, bytes: seq<Byte>, delimiter: char)
    requires IsEncoding(s, bytes, delimiter)
    ensures |s| == EncodedLength(|bytes|, delimiter) && Needed(|s|, delimiter) == |bytes|
    decreases |bytes|
  {
    if |bytes| > 1 {
      EncodingLength(if delimiter == NO_DELIMITER then s[2..] else s[3..], bytes[1..], delimiter);
    }
  }

  // ---------- Encoding ----------

  function Pair(b: Byte): string {
    [HexDigit(b / 16), HexDigit(b % 16)]
  }

  function Mark(delimiter: char): string {
    if delimiter == NO_DELIMITER then [] else [delimiter]
  }

  function Encoded(bytes: seq<Byte>, delimiter: char): string {
    if bytes == [] then []
    else if |bytes| == 1 then Pair(bytes[0])
    else Pair(bytes[0]) + Mark(delimiter) + Encoded(bytes[1..], delimiter)
  }

  lemma {:induction false} EncodedLonger(bytes: seq<Byte>, b: Byte, delimiter: char)
    requires bytes != []
    ensures Encoded(bytes + [b], delimiter) == Encoded(bytes, delimiter) + Mark(delimiter) + Pair(b)
  {
    assert (bytes + [b])[1..] == bytes[1..] + [b];
    if |bytes| > 1 {
      EncodedLonger(bytes[1..], b, delimiter);
    }
  }

  lemma {:induction false} EncodedIsEncoding(bytes: seq<Byte>, delimiter: char)
    ensures IsEncoding(Encoded(bytes, delimiter), bytes, delimiter)
  {
    if bytes != [] {
      DigitRoundTrip(bytes[0] / 16);
      DigitRoundTrip(bytes[0] % 16);
      if |bytes| > 1 {
        EncodedIsEncoding(bytes[1..], delimiter);
        var rest := Encoded(bytes[1..], delimiter);
        assert delimiter == NO_DELIMITER ==> Encoded(bytes, delimiter)[2..] == rest;
        assert delimiter != NO_DELIMITER ==> Encoded(bytes, delimiter)[3..] == rest;
      }
    }
  }

  lemma {:induction false} EncodedIsLower(bytes: seq<Byte>, delimiter: char)
    ensures forall i :: 0 <= i < |Encoded(bytes, delimiter)| ==>
              Encoded(bytes, delimiter)[i] == delimiter || !('A' <= Encoded(bytes, delimiter)[i] <= 'Z')
  {
    if bytes != [] {
      DigitCase(bytes[0] / 16);
      DigitCase(bytes[0] % 16);
      if |bytes| > 1 {
        EncodedIsLower(bytes[1..], delimiter);
      }
    }
  }

  /** What is written when `i` bytes are: no delimiter follows the last byte. */
  function Written(source: seq<Byte>, i: nat, delimiter: char): string
    requires i <= |source|
  {
    Encoded(source[..i], delimiter) + if 0 < i < |source| then Mark(delimiter) else []
  }

  lemma WrittenLonger(source: seq<Byte>, i: nat, delimiter: char)
    requires i < |source|
    ensures Written(source, i + 1, delimiter) ==
            Written(source, i, delimiter) + Pair(source[i]) + (if i + 1 < |source| then Mark(delimiter) else [])
    ensures |Written(source, i, delimiter)| == if delimiter == NO_DELIMITER then 2 * i else 3 * i
  {
    assert source[..i + 1] == source[..i] + [source[i]];
    if i > 0 {
      EncodedLonger(source[..i], source[i], delimiter);
      EncodedIsEncoding(source[..i], delimiter);
      EncodingLength(Encoded(source[..i], delimiter), source[..i], delimiter);
    }
  }

  /** `hex_encode_with_delimiter` on a buffer: it writes the encoding, and no more. */
  method HexEncodeInto(buffer: array<char>, source: seq<Byte>, delimiter: char)
    requires buffer.Length >= EncodedLength(|source|, delimiter)
    modifies buffer
    ensures buffer[..] == Encoded(source, delimiter) + old(buffer[..])[EncodedLength(|source|, delimiter)..]
  {
    var srcPos, bufPos := 0, 0;
    while srcPos < |source|
      invariant 0 <= srcPos <= |source| && bufPos == |Written(source, srcPos, delimiter)| <= buffer.Length
      invariant buffer[..bufPos] == Written(source, srcPos, delimiter)
      invariant buffer[bufPos..] == old(buffer[..])[bufPos..]
    {
      WrittenLonger(source, srcPos, delimiter);
      ghost var was := bufPos;
      var ch := source[srcPos];
      srcPos := srcPos + 1;
      bufPos := WriteByte(buffer, bufPos, ch, if srcPos < |source| then delimiter else NO_DELIMITER);
      assert buffer[bufPos..] == old(buffer[..])[was..][bufPos - was..];
    }
    assert source[..|source|] == source;
    EncodedIsEncoding(source, delimiter);
    EncodingLength(Encoded(source, delimiter), source, delimiter);
    assert buffer[..] == buffer[..bufPos] + buffer[bufPos..];
  }

  /** Writes the digits of one byte, and the delimiter if one follows. */
  method WriteByte(buffer: array<char>, at: nat, ch: Byte, delimiter: char) returns (next: nat)
    requires at + 2 + |Mark(delimiter)| <= buffer.Length
    modifies buffer
    ensures next == at + 2 + |Mark(delimiter)|
    ensures buffer[..next] == old(buffer[..at]) + Pair(ch) + Mark(delimiter)
    ensures buffer[next..] == old(buffer[at..])[next - at..]
  {
    buffer[at] := HexDigit(ch / 16);
    buffer[at + 1] := HexDigit(ch % 16);
    next := at + 2;
    if delimiter != NO_DELIMITER {
      buffer[next] := delimiter;
      next := next + 1;
    }
  }

  method HexEncodeWithDelimiter(source: seq<Byte>, delimiter: char) returns (s: array<char>)
    ensures fresh(s) && s[..] == Encoded(source, delimiter) && IsEncoding(s[..], source, delimiter)
    ensures forall i :: 0 <= i < s.Length ==> s[i] == delimiter || !('A' <= s[i] <= 'Z')
  {
    EncodedIsEncoding(source, delimiter);
    EncodedIsLower(source, delimiter);
    s := new char[EncodedLength(|source|, delimiter)](i => NO_DELIMITER);
    HexEncodeInto(s, source, delimiter);
  }

  // ---------- Decoding ----------

  /** Decoding from a position where a byte begins. */
  function Decoded(s: string, delimiter: char): Option<seq<Byte>>
    decreases |s|
  {
    if s == [] then Some([])
    else if |s| < 2 || HexValue(s[0]).None? || HexValue(s[1]).None? then None
    else if delimiter != NO_DELIMITER && |s| - 2 > 1 && s[2] != delimiter then None
    else
      var rest := Decoded(if delimiter != NO_DELIMITER && |s| - 2 > 1 then s[3..] else s[2..], delimiter);
      if rest.None? then None
      else Some([HexValue(s[0]).value * 16 + HexValue(s[1]).value] + rest.value)
  }

  /** Decoding accepts exactly the encodings, and yields the bytes encoded. */
  lemma {:induction false} DecodedIff(s: string, bytes: seq<Byte>, delimiter: char)
    ensures Decoded(s, delimiter) == Some(bytes) <==> IsEncoding(s, bytes, delimiter)
    decreases |s|
  {
    if |s| >= 2 && HexValue(s[0]).Some? && HexValue(s[1]).Some? && bytes != [] {
      var rest := if delimiter != NO_DELIMITER && |s| - 2 > 1 then s[3..] else s[2..];
      DecodedIff(rest, bytes[1..], delimiter);
      var first := HexValue(s[0]).value * 16 + HexValue(s[1]).value;
      assert first == bytes[0] <==> HexValue(s[0]).value == bytes[0] / 16 && HexValue(s[1]).value == bytes[0] % 16;
      assert bytes == [bytes[0]] + bytes[1..];
    }
  }

  /** What decoding yields once `done` is decoded and `rest` is left. */
  function Joined(done: seq<Byte>, rest: Option<seq<Byte>>): Option<seq<Byte>> {
    if rest.None? then None else Some(done + rest.value)
  }

  /** `hex_decode_with_delimiter`: the number of bytes of the encoding `source`, or 0
      if it is none or the buffer is too small. Whatever the source holds, nothing
      is written past the room needed. */
  method HexDecodeWithDelimiter(buffer: array<Byte>, source: string, delimiter: char) returns (length: nat)
    modifies buffer
    ensures length <= buffer.Length
    ensures forall k :: Needed(|source|, delimiter) <= k < buffer.Length ==> buffer[k] == old(buffer[k])
    ensures length > 0 ==> IsEncoding(source, buffer[..length], delimiter)
    ensures length == 0 ==> forall bytes :: bytes != [] && |bytes| <= buffer.Length ==>
              !IsEncoding(source, bytes, delimiter)
  {
    if buffer.Length == 0 {
      return 0;
    }
    if buffer.Length < Needed(|source|, delimiter) {
      NoEncodingFits(source, buffer.Length, delimiter);
      return 0;
    }
    var decoded := DecodeLoop(buffer, source, delimiter);
    forall bytes | bytes != [] && IsEncoding(source, bytes, delimiter) ensures decoded == |bytes| {
      DecodedIff(source, bytes, delimiter);
    }
    DecodedIff(source, buffer[..decoded], delimiter);
    length := decoded;
  }

  lemma NoEncodingFits(source: string, room: nat, delimiter: char)
    requires room < Needed(|source|, delimiter)
    ensures forall bytes :: |bytes| <= room ==> !IsEncoding(source, bytes, delimiter)
  {
    forall bytes | IsEncoding(source, bytes, delimiter) ensures |bytes| > room {
      EncodingLength(source, bytes, delimiter);
    }
  }

  /** The loop of `hex_decode_with_delimiter`. */
  method DecodeLoop(buffer: array<Byte>, source: string, delimiter: char) returns (length: nat)
    requires Needed(|source|, delimiter) <= buffer.Length
    modifies buffer
    ensures length <= buffer.Length
    ensures forall k :: Needed(|source|, delimiter) <= k < buffer.Length ==> buffer[k] == old(buffer[k])
    ensures Decoded(source, delimiter) == None ==> length == 0
    ensures Decoded(source, delimiter).Some? ==> Decoded(source, delimiter) == Some(buffer[..length])
  {
    var srcPos, bufPos := 0, 0;
    assert source[0..] == source;
    AfterNothing(Decoded(source, delimiter));
    while srcPos < |source|
      invariant 0 <= srcPos <= |source| && bufPos <= buffer.Length
      invariant delimiter == NO_DELIMITER ==> srcPos == 2 * bufPos
      invariant delimiter != NO_DELIMITER ==>
                  || srcPos == 3 * bufPos < |source|
                  || (srcPos == 3 * bufPos - 1 && |source| - srcPos <= 1)
                  || |source| == 0
      invariant Decoded(source, delimiter) == Joined(buffer[..bufPos], Decoded(source[srcPos..], delimiter))
      invariant forall k :: Needed(|source|, delimiter) <= k < buffer.Length ==> buffer[k] == old(buffer[k])
    {
      if |source| - srcPos < 2 {
        return 0;
      }
      var h1, h2 := HexValue(source[srcPos]), HexValue(source[srcPos + 1]);
      if h1.None? || h2.None? {
        return 0;
      }
      ghost var done, left := buffer[..bufPos], source[srcPos..];
      buffer[bufPos] := h1.value * 16 + h2.value;
      bufPos := bufPos + 1;
      srcPos := srcPos + 2;
      assert buffer[..bufPos] == done + [h1.value * 16 + h2.value];
      if delimiter != NO_DELIMITER && |source| - srcPos > 1 {
        if source[srcPos] != delimiter {
          return 0;
        }
        srcPos := srcPos + 1;
        assert left[3..] == source[srcPos..];
      } else {
        assert left[2..] == source[srcPos..];
      }
      DecodedUnfolds(done, left, delimiter);
    }
    assert buffer[..bufPos] + [] == buffer[..bufPos];
    length := bufPos;
  }

  lemma DecodedUnfolds(done: seq<Byte>, left: string, delimiter: char)
    requires |left| >= 2 && HexValue(left[0]).Some? && HexValue(left[1]).Some?
    requires delimiter != NO_DELIMITER && |left| - 2 > 1 ==> left[2] == delimiter
    ensures Joined(done, Decoded(left, delimiter)) ==
            Joined(done + [HexValue(left[0]).value * 16 + HexValue(left[1]).value],
                  Decoded(if delimiter != NO_DELIMITER && |left| - 2 > 1 then left[3..] else left[2..], delimiter))
  {
    var first := HexValue(left[0]).value * 16 + HexValue(left[1]).value;
    var rest := Decoded(if delimiter != NO_DELIMITER && |left| - 2 > 1 then left[3..] else left[2..], delimiter);
    if rest.Some? {
      assert done + ([first] + rest.value) == (done + [first]) + rest.value;
    }
  }

  lemma AfterNothing(rest: Option<seq<Byte>>)
    ensures Joined([], rest) == rest
  {
    if rest.Some? {
      assert [] + rest.value == rest.value;
    }
  }

  // ---------- Fingerprints ----------

  datatype SslFingerprint = SslFingerprint(algorithm: string, digest: seq<Byte>)

  predicate IsFips180DigestAlgorithm(algorithm: string) {
    algorithm in ["sha-1", "sha-224", "sha-256", "sha-384", "sha-512"]
  }

  /** The sizes of the digests of FIPS 180-4, in bytes. */
  const FIPS_180_SIZES: set<nat> := {20, 28, 32, 48, 64}

  /** Of the algorithms that a peer's digest can be set with these, by their size. */
  predicate HasFips180Size(algorithm: string) {
    var size := DtlsSpec.DigestSize(algorithm);
    size.Some? && size.value in FIPS_180_SIZES
  }

  lemma FipsIffSized(algorithm: string)
    ensures IsFips180DigestAlgorithm(algorithm) <==> HasFips180Size(algorithm)
    ensures HasFips180Size(algorithm) <==> DtlsSpec.DigestSize(algorithm).Some? && algorithm != "md5"
  {
    DtlsSpec.DigestSizes(algorithm);
  }

  lemma SettableAreCreated(f: SslFingerprint)
    requires DtlsSpec.DigestSize(f.algorithm) == Some(|f.digest|)
    ensures 1 <= |f.digest| <= MAX_DIGEST_SIZE
    ensures HasFips180Size(f.algorithm) <==> f.algorithm != "md5"
  {
    DtlsSpec.DigestSizes(f.algorithm);
  }

  lemma {:induction false} UpperIsEncoding(bytes: seq<Byte>, delimiter: char)
    requires Upper(delimiter) == delimiter
    ensures IsEncoding(UpperAll(Encoded(bytes, delimiter)), bytes, delimiter)
    ensures forall i :: 0 <= i < |Encoded(bytes, delimiter)| ==>
              UpperAll(Encoded(bytes, delimiter))[i] == delimiter
              || !('a' <= UpperAll(Encoded(bytes, delimiter))[i] <= 'z')
  {
    if bytes != [] {
      var s, k := Encoded(bytes, delimiter), 2 + |Mark(delimiter)|;
      DigitRoundTrip(bytes[0] / 16);
      DigitRoundTrip(bytes[0] % 16);
      assert s[..2] == Pair(bytes[0]) && UpperAll(s)[0] == Upper(s[0]) && UpperAll(s)[1] == Upper(s[1]);
      if |bytes| > 1 {
        assert s[k..] == Encoded(bytes[1..], delimiter);
        assert UpperAll(s)[k..] == UpperAll(s[k..]);
        UpperIsEncoding(bytes[1..], delimiter);
      }
    }
  }

  method UpperInPlace(s: array<char>)
    modifies s
    ensures s[..] == UpperAll(old(s[..]))
  {
    var i := 0;
    while i < s.Length
      invariant 0 <= i <= s.Length
      invariant forall k :: 0 <= k < i ==> s[k] == Upper(old(s[k]))
      invariant forall k :: i <= k < s.Length ==> s[k] == old(s[k])
    {
      s[i] := Upper(s[i]);
      i := i + 1;
    }
  }

  /** `GetRfc4572Fingerprint`: upper-case hexadecimal with colons. */
  method GetRfc4572Fingerprint(f: SslFingerprint) returns (fingerprint: string)
    ensures fingerprint == UpperAll(Encoded(f.digest, ':'))
    ensures IsEncoding(fingerprint, f.digest, ':')
    ensures forall i :: 0 <= i < |fingerprint| ==> !('a' <= fingerprint[i] <= 'z')
  {
    UpperIsEncoding(f.digest, ':');
    var s := HexEncodeWithDelimiter(f.digest, ':');
    UpperInPlace(s);
    fingerprint := s[..];
  }

  /** `CreateUniqueFromRfc4572`: a fingerprint comes out exactly when the algorithm
      is one whose digests have a size of FIPS 180-4, and the text encodes 1 to 64
      bytes, which are its digest. */
  method CreateUniqueFromRfc4572(algorithm: string, fingerprint: string) returns (f: Option<SslFingerprint>)
    ensures forall digest :: f == Some(SslFingerprint(algorithm, digest)) <==>
              && HasFips180Size(algorithm) && 1 <= |digest| <= MAX_DIGEST_SIZE
              && IsEncoding(fingerprint, digest, ':')
    ensures f.Some? ==> f.value.algorithm == algorithm
  {
    FipsIffSized(algorithm);
    if algorithm == "" || !IsFips180DigestAlgorithm(algorithm) {
      return None;
    }
    if fingerprint == "" {
      return None;
    }
    var value := new Byte[MAX_DIGEST_SIZE](i => 0);
    var length := HexDecodeWithDelimiter(value, fingerprint, ':');
    if length == 0 {
      return None;
    }
    forall digest | IsEncoding(fingerprint, digest, ':') ensures digest == value[..length] {
      DecodedIff(fingerprint, digest, ':');
      DecodedIff(fingerprint, value[..length], ':');
    }
    f := Some(SslFingerprint(algorithm, value[..length]));
  }

  /** Writing a fingerprint and reading it restores every digest of 1 to 64 bytes of
      such an algorithm, and refuses all others. It restores each that the peer can
      be given as its digest, but for those of md5. */
  method RoundTrip(f: SslFingerprint) returns (read: Option<SslFingerprint>)
    ensures read == if HasFips180Size(f.algorithm) && 1 <= |f.digest| <= MAX_DIGEST_SIZE then Some(f) else None
    ensures DtlsSpec.DigestSize(f.algorithm) == Some(|f.digest|) ==> (read == Some(f) <==> f.algorithm != "md5")
  {
    if DtlsSpec.DigestSize(f.algorithm) == Some(|f.digest|) {
      SettableAreCreated(f);
    }
    var text := GetRfc4572Fingerprint(f);
    UpperIsEncoding(f.digest, ':');
    read := CreateUniqueFromRfc4572(f.algorithm, text);
    if read.Some? {
      DecodedIff(text, f.digest, ':');
      DecodedIff(text, read.value.digest, ':');
    }
  }
}
