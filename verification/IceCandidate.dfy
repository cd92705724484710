/** ICE candidate lines in webrtc-client/p2p/adapter-latest.js: `parseCandidate`
    and `writeCandidate`, after the grammar of section 15.1 of RFC 5245. */
module IceCandidate {

  import opened Basics

  /** The values the properties of a candidate take; `Absent` is undefined. */
  datatype Field = Absent | Text(text: string) | Number(value: int) | NotANumber {

    /** All values but these four count as true. */
    predicate Truthy()
      ensures Truthy() <==> this !in {Absent, Text(""), Number(0), NotANumber}
    {
      match this
      case Absent => false
      case Text(text) => text != ""
      case Number(value) => value != 0
      case NotANumber => false
    }

    /** How `join` shows it. */
    function Show(): string {
      match this
      case Absent => ""
      case Text(text) => text
      case Number(value) => Shown(value)
      case NotANumber => "NaN"
    }
  }

  /** An object with its properties; one that is missing reads as undefined. */
  type Candidate = map<string, Field>

  function ReadField(c: Candidate, name: string): Field {
    if name in c then c[name] else Absent
  }

  function Or(a: Field, b: Field): Field {
    if a.Truthy() then a else b
  }

  // ---------- Numbers ----------

  predicate IsDigit(c: char) {
    '0' <= c <= '9'
  }

  function Decimal(n: nat): (s: string)
    ensures |s| > 0
  {
    (if n < 10 then [] else Decimal(n / 10)) + [(n % 10 + '0' as int) as char]
  }

  function Digits(s: string): (d: string)
    ensures |d| <= |s| && forall i :: 0 <= i < |d| ==> IsDigit(d[i])
  {
    if s == [] || !IsDigit(s[0]) then [] else [s[0]] + Digits(s[1..])
  }

  function DigitsValue(digits: string): nat
    requires forall i :: 0 <= i < |digits| ==> IsDigit(digits[i])
  {
    if digits == [] then 0
    else
      assert IsDigit(digits[|digits| - 1]);
      DigitsValue(digits[..|digits| - 1]) * 10 + (digits[|digits| - 1] as int - '0' as int)
  }

  function Shown(n: int): (s: string)
    ensures |s| > 0
  {
    if n < 0 then "-" + Decimal(-n) else Decimal(n)
  }

  predicate IsBlank(c: char)
    ensures IsBlank(c) <==> c as int in {9, 10, 11, 12, 13, 32}
  {
    c == ' ' || '\t' <= c <= '\r'
  }

  function SkipBlanks(s: string): string {
    if s == [] || !IsBlank(s[0]) then s else SkipBlanks(s[1..])
  }

  function ParseDigits(s: string, sign: int): Field {
    if Digits(s) == [] then NotANumber else Number(sign * DigitsValue(Digits(s)))
  }

  /** `parseInt` with radix 10: blanks, a sign, and as many digits as there are. */
  function ParseInt(f: Field): Field {
    if !f.Text? then NotANumber
    else
      ParseSigned(SkipBlanks(f.text))
  }

  function ParseSigned(s: string): Field {
    if s != [] && s[0] == '-' then ParseDigits(s[1..], -1)
    else if s != [] && s[0] == '+' then ParseDigits(s[1..], 1)
    else ParseDigits(s, 1)
  }

  lemma {:induction false} AllDigits(s: string)
    requires forall i :: 0 <= i < |s| ==> IsDigit(s[i])
    ensures Digits(s) == s
  {
    if s != [] {
      AllDigits(s[1..]);
    }
  }

  lemma {:induction false} DecimalRoundTrip(n: nat)
    ensures forall i :: 0 <= i < |Decimal(n)| ==> IsDigit(Decimal(n)[i])
    ensures DigitsValue(Decimal(n)) == n
  {
    var s := Decimal(n);
    if n >= 10 {
      DecimalRoundTrip(n / 10);
      assert s[..|s| - 1] == Decimal(n / 10);
    }
  }

  lemma DigitsRoundTrip(digits: string, n: nat, sign: int)
    requires digits == Decimal(n)
    ensures ParseDigits(digits, sign) == Number(sign * n)
    ensures IsDigit(digits[0]) && NoSpace(digits)
  {
    DecimalRoundTrip(n);
    AllDigits(digits);
    assert IsDigit(digits[0]);
  }

  /** Of blanks, a sign and digits with something else behind them, `parseInt` takes
      the number. */
  lemma ParseIntTakes(blanks: string, sign: string, digits: string, rest: string)
    requires (forall i :: 0 <= i < |blanks| ==> IsBlank(blanks[i]))
    requires sign == "" || sign == "+" || sign == "-"
    requires digits != [] && (forall i :: 0 <= i < |digits| ==> IsDigit(digits[i]))
    requires rest == [] || !IsDigit(rest[0])
    ensures ParseInt(Text(blanks + (sign + (digits + rest))))
            == Number((if sign == "-" then -1 else 1) * DigitsValue(digits))
  {
    var number := digits + rest;
    DigitsTaken(digits, rest, if sign == "-" then -1 else 1);
    if sign == "" {
      assert sign + number == number;
      SkipsBlanks(blanks, number);
    } else {
      assert sign + number == [sign[0]] + number;
      SkipsBlanks(blanks, [sign[0]] + number);
      SignedNumber(sign[0], number);
    }
  }

  lemma DigitsTaken(digits: string, rest: string, sign: int)
    requires digits != [] && (rest == [] || !IsDigit(rest[0]))
    requires forall i :: 0 <= i < |digits| ==> IsDigit(digits[i])
    ensures ParseDigits(digits + rest, sign) == Number(sign * DigitsValue(digits)) && IsDigit((digits + rest)[0])
  {
    DigitsOf(digits, rest);
  }

  lemma SignedNumber(sign: char, number: string)
    requires sign == '+' || sign == '-'
    ensures ParseSigned([sign] + number) == ParseDigits(number, if sign == '-' then -1 else 1)
  {
    assert ([sign] + number)[1..] == number;
  }

  lemma {:induction false} SkipsBlanks(blanks: string, s: string)
    requires (forall i :: 0 <= i < |blanks| ==> IsBlank(blanks[i])) && s != [] && !IsBlank(s[0])
    ensures SkipBlanks(blanks + s) == s
  {
    if blanks == [] {
      assert blanks + s == s;
    } else {
      assert (blanks + s)[1..] == blanks[1..] + s;
      SkipsBlanks(blanks[1..], s);
    }
  }

  lemma {:induction false} DigitsOf(digits: string, rest: string)
    requires (forall i :: 0 <= i < |digits| ==> IsDigit(digits[i])) && (rest == [] || !IsDigit(rest[0]))
    ensures Digits(digits + rest) == digits
  {
    if digits == [] {
      assert digits + rest == rest;
    } else {
      assert (digits + rest)[1..] == digits[1..] + rest;
      DigitsOf(digits[1..], rest);
    }
  }

  lemma SkipNothing(s: string)
    requires s != [] && !IsBlank(s[0])
    ensures SkipBlanks(s) == s
  {
  }

  lemma NumberRoundTrip(n: int)
    ensures ParseInt(Text(Shown(n))) == Number(n)
    ensures NoSpace(Shown(n))
  {
    var s := Shown(n);
    if n < 0 {
      DigitsRoundTrip(s[1..], -n, -1);
      SkipNothing(s);
    } else {
      DigitsRoundTrip(s, n, 1);
      SkipNothing(s);
    }
  }

  // ---------- Text ----------

  predicate NoSpace(s: string) {
    forall i :: 0 <= i < |s| ==> s[i] != ' '
  }

  /** The characters before the first space. */
  function Head(s: string): (h: string)
    ensures |h| <= |s| && NoSpace(h) && h == s[..|h|] && (|h| < |s| ==> s[|h|] == ' ')
  {
    if s == [] || s[0] == ' ' then [] else [s[0]] + Head(s[1..])
  }

  /** `split(' ')`. */
  function Split(s: string): (parts: seq<string>)
    ensures |parts| > 0
  {
    var h := Head(s);
    if |h| == |s| then [s] else [h] + Split(s[|h| + 1..])
  }

  /** `join(' ')`. */
  function Join(parts: seq<string>): string {
    if parts == [] then [] else if |parts| == 1 then parts[0] else parts[0] + " " + Join(parts[1..])
  }

  lemma {:induction false} SplitOfJoin(parts: seq<string>)
    requires |parts| > 0 && forall i :: 0 <= i < |parts| ==> NoSpace(parts[i])
    ensures Split(Join(parts)) == parts
  {
    if |parts| == 1 {
      HeadOf(parts[0], "");
      assert parts[0] + "" == parts[0];
    } else {
      var rest := Join(parts[1..]);
      HeadOf(parts[0], " " + rest);
      assert parts[0] + " " + rest == parts[0] + (" " + rest);
      assert (parts[0] + " " + rest)[|parts[0]| + 1..] == rest;
      SplitOfJoin(parts[1..]);
    }
  }

  /** What is split is the text between the spaces. */
  lemma {:induction false} JoinOfSplit(s: string)
    ensures Join(Split(s)) == s && forall i :: 0 <= i < |Split(s)| ==> NoSpace(Split(s)[i])
    decreases |s|
  {
    var h := Head(s);
    if |h| < |s| {
      JoinOfSplit(s[|h| + 1..]);
      assert Split(s)[1..] == Split(s[|h| + 1..]);
      assert s == h + " " + s[|h| + 1..];
    }
  }

  lemma {:induction false} HeadOf(h: string, rest: string)
    requires NoSpace(h) && (rest == [] || rest[0] == ' ')
    ensures Head(h + rest) == h
  {
    if h != [] {
      assert (h + rest)[1..] == h[1..] + rest;
      HeadOf(h[1..], rest);
    } else {
      assert h + rest == rest;
    }
  }

  // ---------- Parsing ----------

  function Part(parts: seq<string>, i: nat): Field {
    if i < |parts| then Text(parts[i]) else Absent
  }

  function Component(part: Field): Field {
    if part == Text("1") then Text("rtp") else if part == Text("2") then Text("rtcp") else part
  }

  function Fixed(parts: seq<string>): Candidate
    requires |parts| >= 3
  {
    map["foundation" := Part(parts, 0), "component" := Component(Part(parts, 1)),
        "protocol" := Text(LowerAll(parts[2])),
        "priority" := ParseInt(Part(parts, 3)), "ip" := Part(parts, 4), "address" := Part(parts, 4),
        "port" := ParseInt(Part(parts, 5)), "type" := Part(parts, 7)]
  }

  /** One name and its value after the fixed parts. */
  function Extra(c: Candidate, name: string, value: Field): Candidate {
    if name == "raddr" then c["relatedAddress" := value]
    else if name == "rport" then c["relatedPort" := ParseInt(value)]
    else if name == "tcptype" then c["tcpType" := value]
    else if name == "ufrag" then c["ufrag" := value]["usernameFragment" := value]
    else if ReadField(c, name) == Absent then c[name := value]
    else c
  }

  function Extras(c: Candidate, parts: seq<string>): Candidate
    decreases |parts|
  {
    if parts == [] then c
    else Extras(Extra(c, parts[0], Part(parts, 1)), if |parts| == 1 then [] else parts[2..])
  }

  /** What a line means; none if the source would raise an error on it. */
  function Parsed(parts: seq<string>): Option<Candidate> {
    if |parts| < 3 then None else Some(Extras(Fixed(parts), if |parts| < 8 then [] else parts[8..]))
  }

  predicate StartsWith(s: string, prefix: string) {
    |prefix| <= |s| && s[..|prefix|] == prefix
  }

  function Substring(s: string, from: nat): string {
    if from <= |s| then s[from..] else []
  }

  method ParseCandidate(line: string) returns (result: Option<Candidate>)
    ensures result == Parsed(Split(Body(line)))
    ensures result.None? <==> |Split(Body(line))| < 3
  {
    var parts := Split(Substring(line, if StartsWith(line, "a=candidate:") then 12 else 10));
    if |parts| < 3 {
      return None;
    }
    var candidate := Fixed(parts);
    var i := 8;
    while i < |parts|
      invariant 8 <= i
      invariant Parsed(parts) == Some(Extras(candidate, if i < |parts| then parts[i..] else []))
    {
      ghost var rest := parts[i..];
      candidate := Extra(candidate, parts[i], Part(parts, i + 1));
      i := i + 2;
      assert i < |parts| ==> rest[2..] == parts[i..];
    }
    result := Some(candidate);
  }

  // ---------- Names and values ----------

  const NAMES: set<string> := {"raddr", "rport", "tcptype", "ufrag"}

  /** The property that a known name sets, or an extension of that name. */
  function PropertyOf(name: string): string {
    if name == "raddr" then "relatedAddress"
    else if name == "rport" then "relatedPort"
    else if name == "tcptype" then "tcpType"
    else name
  }

  function ValueOf(name: string, value: Field): Field {
    if name == "rport" then ParseInt(value) else value
  }

  predicate Sets(name: string, property: string) {
    name in NAMES && (property == PropertyOf(name) || (name == "ufrag" && property == "usernameFragment"))
  }

  /** No name in `parts` bears on the property; one that is defined is safe from
      extensions of its name. */
  ghost predicate Untouched(parts: seq<string>, property: string, defined: bool) {
    forall k: nat :: 2 * k < |parts| ==> !Sets(parts[2 * k], property) && (defined || parts[2 * k] != property)
  }

  function Behind(parts: seq<string>): (rest: seq<string>)
    ensures |rest| == if |parts| <= 2 then 0 else |parts| - 2
    ensures forall k: nat :: 2 * k < |rest| ==> rest[2 * k] == parts[2 * (k + 1)]
  {
    if |parts| <= 1 then [] else parts[2..]
  }

  lemma UntouchedBehind(parts: seq<string>, property: string, defined: bool)
    requires Untouched(parts, property, defined)
    ensures Untouched(Behind(parts), property, defined)
  {
    var rest := Behind(parts);
    forall k: nat | 2 * k < |rest|
      ensures !Sets(rest[2 * k], property) && (defined || rest[2 * k] != property)
    {
      assert rest[2 * k] == parts[2 * (k + 1)];
    }
  }

  lemma {:induction false} NothingOverwrites(c: Candidate, parts: seq<string>, property: string)
    requires Untouched(parts, property, ReadField(c, property) != Absent)
    ensures ReadField(Extras(c, parts), property) == ReadField(c, property)
    decreases |parts|
  {
    if parts != [] {
      assert parts[2 * 0] == parts[0];
      UntouchedBehind(parts, property, ReadField(c, property) != Absent);
      NothingOverwrites(Extra(c, parts[0], Part(parts, 1)), Behind(parts), property);
    }
  }

  /** A known name sets its property to the value behind it, and the last one counts;
      `ufrag` sets two. */
  lemma {:induction false} LastCounts(c: Candidate, parts: seq<string>, name: string, property: string, k: nat)
    requires 2 * k < |parts| && parts[2 * k] == name && Sets(name, property)
    requires forall j: nat :: k < j && 2 * j < |parts| ==> !Sets(parts[2 * j], property)
    ensures ReadField(Extras(c, parts), property) == ValueOf(name, Part(parts, 2 * k + 1))
    decreases |parts|
  {
    if k > 0 {
      var rest := Behind(parts);
      assert rest[2 * (k - 1)] == parts[2 * k];
      forall j: nat | k - 1 < j && 2 * j < |rest| ensures !Sets(rest[2 * j], property) {
        assert rest[2 * j] == parts[2 * (j + 1)];
      }
      LastCounts(Extra(c, parts[0], Part(parts, 1)), rest, name, property, k - 1);
    } else {
      FirstIsLast(c, parts, name, property);
    }
  }

  lemma FirstIsLast(c: Candidate, parts: seq<string>, name: string, property: string)
    requires parts != [] && parts[0] == name && Sets(name, property)
    requires forall j: nat :: 0 < j && 2 * j < |parts| ==> !Sets(parts[2 * j], property)
    ensures ReadField(Extras(c, parts), property) == ValueOf(name, Part(parts, 1))
  {
    UntouchedLater(parts, property);
    NothingOverwrites(Extra(c, parts[0], Part(parts, 1)), Behind(parts), property);
  }

  lemma UntouchedLater(parts: seq<string>, property: string)
    requires forall j: nat :: 0 < j && 2 * j < |parts| ==> !Sets(parts[2 * j], property)
    ensures Untouched(Behind(parts), property, true)
  {
    forall j: nat | 2 * j < |Behind(parts)| ensures !Sets(Behind(parts)[2 * j], property) {
      assert Behind(parts)[2 * j] == parts[2 * (j + 1)];
    }
  }

  /** A name that is not known sets the property of its own name if there is none
      yet, so that the first one counts. */
  lemma {:induction false} FirstCounts(c: Candidate, parts: seq<string>, name: string, k: nat)
    requires 2 * k < |parts| && parts[2 * k] == name && name !in NAMES && ReadField(c, name) == Absent
    requires forall j: nat :: 2 * j < |parts| ==> !Sets(parts[2 * j], name) && (j < k ==> parts[2 * j] != name)
    ensures ReadField(Extras(c, parts), name) == Part(parts, 2 * k + 1)
    decreases |parts|
  {
    var rest, v := Behind(parts), Extra(c, parts[0], Part(parts, 1));
    assert parts[2 * 0] == parts[0];
    forall j: nat | 2 * j < |rest|
      ensures !Sets(rest[2 * j], name) && (j + 1 < k ==> rest[2 * j] != name)
    {
      assert rest[2 * j] == parts[2 * (j + 1)];
    }
    if k > 0 {
      assert rest[2 * (k - 1)] == parts[2 * k];
      FirstCounts(v, rest, name, k - 1);
    } else {
      NothingOverwrites(v, rest, name);
    }
  }

  // ---------- Writing ----------

  function Related(c: Candidate): seq<string> {
    if ReadField(c, "type") != Text("host") && ReadField(c, "relatedAddress").Truthy()
       && ReadField(c, "relatedPort").Truthy() then
      ["raddr", ReadField(c, "relatedAddress").Show(), "rport", ReadField(c, "relatedPort").Show()]
    else []
  }

  function TcpType(c: Candidate): seq<string>
    requires ReadField(c, "protocol").Text?
  {
    if ReadField(c, "tcpType").Truthy() && LowerAll(ReadField(c, "protocol").text) == "tcp" then
      ["tcptype", ReadField(c, "tcpType").Show()]
    else []
  }

  function Fragment(c: Candidate): seq<string> {
    var fragment := Or(ReadField(c, "usernameFragment"), ReadField(c, "ufrag"));
    if fragment.Truthy() then ["ufrag", fragment.Show()] else []
  }

  function FixedTokens(c: Candidate): (tokens: seq<string>)
    requires ReadField(c, "protocol").Text?
    ensures |tokens| == 8
  {
    var component := ReadField(c, "component");
    [ReadField(c, "foundation").Show(),
     if component == Text("rtp") then "1" else if component == Text("rtcp") then "2" else component.Show(),
     UpperAll(ReadField(c, "protocol").text), ReadField(c, "priority").Show(),
     Or(ReadField(c, "address"), ReadField(c, "ip")).Show(),
     ReadField(c, "port").Show(), "typ", ReadField(c, "type").Show()]
  }

  function Tokens(c: Candidate): seq<string>
    requires ReadField(c, "protocol").Text?
  {
    FixedTokens(c) + Related(c) + TcpType(c) + Fragment(c)
  }

  /** `written` is the text in capitals. */
  predicate Capitals(written: string, text: string) {
    LowerAll(written) == LowerAll(text) && forall i :: 0 <= i < |written| ==> !('a' <= written[i] <= 'z')
  }

  predicate ShowsRelated(c: Candidate) {
    ReadField(c, "type") != Text("host")
    && ReadField(c, "relatedAddress").Truthy() && ReadField(c, "relatedPort").Truthy()
  }

  predicate ShowsTcpType(c: Candidate) {
    ReadField(c, "tcpType").Truthy()
    && ReadField(c, "protocol").Text? && LowerAll(ReadField(c, "protocol").text) == "tcp"
  }

  predicate ShowsFragment(c: Candidate) {
    ReadField(c, "usernameFragment").Truthy() || ReadField(c, "ufrag").Truthy()
  }

  /** The parts stand for the properties of `c`, each at its place. */
  predicate Describes(parts: seq<string>, c: Candidate) {
    var typeAt := 8 + if ShowsRelated(c) then 4 else 0;
    var fragmentAt := typeAt + if ShowsTcpType(c) then 2 else 0;
    && |parts| == fragmentAt + (if ShowsFragment(c) then 2 else 0)
    && parts[0] == ReadField(c, "foundation").Show()
    && (parts[1] == "1" <== ReadField(c, "component") == Text("rtp"))
    && (parts[1] == "2" <== ReadField(c, "component") == Text("rtcp"))
    && (parts[1] == ReadField(c, "component").Show() <== ReadField(c, "component") !in {Text("rtp"), Text("rtcp")})
    && ReadField(c, "protocol").Text? && Capitals(parts[2], ReadField(c, "protocol").text)
    && parts[3] == ReadField(c, "priority").Show()
    && (parts[4] == ReadField(c, "address").Show() <== ReadField(c, "address").Truthy())
    && (parts[4] == ReadField(c, "ip").Show() <== !ReadField(c, "address").Truthy())
    && parts[5] == ReadField(c, "port").Show()
    && parts[6] == "typ" && parts[7] == ReadField(c, "type").Show()
    && (ShowsRelated(c) ==>
          && parts[8] == "raddr" && parts[9] == ReadField(c, "relatedAddress").Show()
          && parts[10] == "rport" && parts[11] == ReadField(c, "relatedPort").Show())
    && (ShowsTcpType(c) ==> parts[typeAt] == "tcptype" && parts[typeAt + 1] == ReadField(c, "tcpType").Show())
    && (ShowsFragment(c) ==>
          && parts[fragmentAt] == "ufrag"
          && (parts[fragmentAt + 1] == ReadField(c, "usernameFragment").Show()
              <== ReadField(c, "usernameFragment").Truthy())
          && (parts[fragmentAt + 1] == ReadField(c, "ufrag").Show()
              <== !ReadField(c, "usernameFragment").Truthy()))
  }

  lemma UpperIsCapitals(s: string)
    ensures Capitals(UpperAll(s), s)
  {
    forall i | 0 <= i < |s| ensures LowerAll(UpperAll(s))[i] == LowerAll(s)[i] {
    }
  }

  lemma TokensDescribe(c: Candidate)
    requires ReadField(c, "protocol").Text?
    ensures Describes(Tokens(c), c)
  {
    UpperIsCapitals(ReadField(c, "protocol").text);
  }

  /** No value has a space in it, so that the line can be split again. */
  ghost predicate SpaceFree(c: Candidate) {
    forall name :: NoSpace(ReadField(c, name).Show())
  }

  lemma FixedTokensHaveNoSpace(c: Candidate)
    requires SpaceFree(c) && ReadField(c, "protocol").Text?
    ensures forall i :: 0 <= i < 8 ==> NoSpace(FixedTokens(c)[i])
  {
    assert NoSpace(ReadField(c, "protocol").Show());
  }

  lemma OptionalTokensHaveNoSpace(c: Candidate)
    requires SpaceFree(c) && ReadField(c, "protocol").Text?
    ensures forall i :: 0 <= i < |Related(c)| ==> NoSpace(Related(c)[i])
    ensures forall i :: 0 <= i < |TcpType(c)| ==> NoSpace(TcpType(c)[i])
    ensures forall i :: 0 <= i < |Fragment(c)| ==> NoSpace(Fragment(c)[i])
  {
  }

  lemma SplitOfTokens(c: Candidate)
    requires SpaceFree(c) && ReadField(c, "protocol").Text?
    ensures Split(Join(Tokens(c))) == Tokens(c)
  {
    FixedTokensHaveNoSpace(c);
    OptionalTokensHaveNoSpace(c);
    SplitOfJoin(Tokens(c));
  }

  /** A line has the parts that describe the candidate, with spaces between them; if
      no value has a space in it they are what the line splits into. */
  method WriteCandidate(c: Candidate) returns (line: string)
    requires ReadField(c, "protocol").Text?
    ensures line == "candidate:" + Join(Tokens(c)) && Describes(Tokens(c), c)
    ensures SpaceFree(c) ==> |line| >= 10 && Describes(Split(line[10..]), c)
  {
    TokensDescribe(c);
    if SpaceFree(c) {
      SplitOfTokens(c);
    }
    var sdp := FixedTokens(c);
    sdp := sdp + Related(c);
    sdp := sdp + TcpType(c);
    sdp := sdp + Fragment(c);
    line := "candidate:" + Join(sdp);
    assert line[10..] == Join(sdp);
  }

  // ---------- The round trip ----------

  /** A token that is text without spaces. */
  ghost predicate Token(f: Field) {
    f.Text? && NoSpace(f.text)
  }

  /** What every candidate has: text without spaces, numbers, a lower-case protocol,
      the address under both its names, and a component that is not a number of one
      that has a name. */
  ghost predicate HasFixed(c: Candidate) {
    && Token(ReadField(c, "foundation")) && Token(ReadField(c, "component"))
    && Token(ReadField(c, "protocol")) && Token(ReadField(c, "ip"))
    && Token(ReadField(c, "type")) && ReadField(c, "address") == ReadField(c, "ip")
    && ReadField(c, "component").text != "1" && ReadField(c, "component").text != "2"
    && LowerAll(ReadField(c, "protocol").text) == ReadField(c, "protocol").text
    && ReadField(c, "priority").Number? && ReadField(c, "port").Number?
  }

  /** The optional properties are there only where the writer shows them. */
  ghost predicate HasOptional(c: Candidate) {
    && ("relatedAddress" in c <==> "relatedPort" in c)
    && ("relatedAddress" in c ==> c["relatedPort"].Number? && c["relatedPort"].value != 0
                                  && Token(c["relatedAddress"]) && c["relatedAddress"].text != ""
                                  && ReadField(c, "type") != Text("host"))
    && ("tcpType" in c ==> Token(c["tcpType"]) && c["tcpType"].text != "" && ReadField(c, "protocol") == Text("tcp"))
    && ("ufrag" in c <==> "usernameFragment" in c)
    && ("ufrag" in c ==> Token(c["ufrag"]) && c["ufrag"].text != "" && c["usernameFragment"] == c["ufrag"])
  }

  const FIXED_NAMES: set<string> :=
    {"foundation", "component", "protocol", "priority", "ip", "address", "port", "type"}
  const OPTIONAL_NAMES: set<string> := {"relatedAddress", "relatedPort", "tcpType", "ufrag", "usernameFragment"}

  ghost predicate Writable(c: Candidate) {
    FIXED_NAMES <= c.Keys <= FIXED_NAMES + OPTIONAL_NAMES && HasFixed(c) && HasOptional(c)
  }

  lemma LowerOfUpper(s: string)
    requires LowerAll(s) == s
    ensures LowerAll(UpperAll(s)) == s
  {
    forall i | 0 <= i < |s| ensures Lower(Upper(s[i])) == s[i] {
      assert LowerAll(s)[i] == s[i];
    }
  }

  lemma WritableIsSpaceFree(c: Candidate)
    requires Writable(c)
    ensures SpaceFree(c)
  {
    forall name ensures NoSpace(ReadField(c, name).Show()) {
      if ReadField(c, name).Number? {
        NumberRoundTrip(ReadField(c, name).value);
      } else if name in c {
        assert name in FIXED_NAMES + OPTIONAL_NAMES;
      }
    }
  }

  lemma FixedRoundTrip(c: Candidate, more: seq<string>)
    requires Writable(c)
    ensures Fixed(FixedTokens(c) + more) == FixedOf(c)
  {
    LowerOfUpper(c["protocol"].text);
    NumberRoundTrip(c["priority"].value);
    NumberRoundTrip(c["port"].value);
  }

  /** The optional properties of `c`, set on `base` one group after the other. */
  ghost function WithRelated(c: Candidate, base: Candidate): Candidate
    requires Writable(c)
  {
    if "relatedAddress" in c then
      base["relatedAddress" := c["relatedAddress"]]["relatedPort" := c["relatedPort"]]
    else base
  }

  ghost function WithTcpType(c: Candidate, base: Candidate): Candidate {
    if "tcpType" in c then base["tcpType" := c["tcpType"]] else base
  }

  ghost function WithFragment(c: Candidate, base: Candidate): Candidate {
    if "ufrag" in c then base["ufrag" := c["ufrag"]]["usernameFragment" := c["ufrag"]] else base
  }

  ghost function FixedOf(c: Candidate): Candidate
    requires Writable(c)
  {
    map name | name in FIXED_NAMES :: c[name]
  }

  /** One name and its value, and what is behind them. */
  lemma ExtrasStep(c: Candidate, name: string, value: string, more: seq<string>)
    ensures Extras(c, [name, value] + more) == Extras(Extra(c, name, Text(value)), more)
  {
    var parts := [name, value] + more;
    assert Part(parts, 1) == Text(value) && parts[2..] == more;
  }

  lemma RelatedRoundTrip(c: Candidate, base: Candidate, more: seq<string>)
    requires Writable(c)
    ensures Extras(base, Related(c) + more) == Extras(WithRelated(c, base), more)
  {
    if "relatedAddress" in c {
      var address, port := c["relatedAddress"].text, c["relatedPort"].Show();
      NumberRoundTrip(c["relatedPort"].value);
      assert Related(c) + more == ["raddr", address] + (["rport", port] + more);
      ExtrasStep(base, "raddr", address, ["rport", port] + more);
      ExtrasStep(base["relatedAddress" := Text(address)], "rport", port, more);
    } else {
      assert Related(c) + more == more;
    }
  }

  lemma TcpTypeRoundTrip(c: Candidate, base: Candidate, more: seq<string>)
    requires Writable(c)
    ensures Extras(base, TcpType(c) + more) == Extras(WithTcpType(c, base), more)
  {
    if "tcpType" in c {
      assert TcpType(c) + more == ["tcptype", c["tcpType"].text] + more;
      ExtrasStep(base, "tcptype", c["tcpType"].text, more);
    } else {
      assert TcpType(c) + more == more;
    }
  }

  lemma FragmentRoundTrip(c: Candidate, base: Candidate)
    requires Writable(c)
    ensures Extras(base, Fragment(c)) == WithFragment(c, base)
  {
  }

  lemma AllProperties(c: Candidate)
    requires Writable(c)
    ensures WithFragment(c, WithTcpType(c, WithRelated(c, FixedOf(c)))) == c
  {
    var whole := WithFragment(c, WithTcpType(c, WithRelated(c, FixedOf(c))));
    forall name | name in c ensures name in whole && whole[name] == c[name] {
      assert name in FIXED_NAMES + OPTIONAL_NAMES;
    }
    forall name | name in whole ensures name in c {
    }
  }

  /** What is written for a candidate means the candidate. */
  lemma TokensRoundTrip(c: Candidate)
    requires Writable(c)
    ensures Parsed(Tokens(c)) == Some(c)
  {
    var fixed, extras := FixedTokens(c), Related(c) + (TcpType(c) + Fragment(c));
    assert Tokens(c) == fixed + extras;
    FixedRoundTrip(c, extras);
    assert (fixed + extras)[8..] == extras;
    ExtrasRoundTrip(c);
  }

  lemma ExtrasRoundTrip(c: Candidate)
    requires Writable(c)
    ensures Extras(FixedOf(c), Related(c) + (TcpType(c) + Fragment(c))) == c
  {
    calc {
      Extras(FixedOf(c), Related(c) + (TcpType(c) + Fragment(c)));
      { RelatedRoundTrip(c, FixedOf(c), TcpType(c) + Fragment(c)); }
      Extras(WithRelated(c, FixedOf(c)), TcpType(c) + Fragment(c));
      { TcpTypeRoundTrip(c, WithRelated(c, FixedOf(c)), Fragment(c)); }
      Extras(WithTcpType(c, WithRelated(c, FixedOf(c))), Fragment(c));
      { FragmentRoundTrip(c, WithTcpType(c, WithRelated(c, FixedOf(c)))); }
      WithFragment(c, WithTcpType(c, WithRelated(c, FixedOf(c))));
      { AllProperties(c); }
      c;
    }
  }

  /** The text that `parseCandidate` splits. */
  function Body(line: string): string {
    Substring(line, if StartsWith(line, "a=candidate:") then 12 else 10)
  }

  lemma PrefixIsSkipped(body: string)
    ensures Body("candidate:" + body) == body
    ensures "a=" + ("candidate:" + body) == "a=candidate:" + body && Body("a=candidate:" + body) == body
  {
    var line := "candidate:" + body;
    assert line[0] == 'c';
    if |line| >= 12 {
      assert line[..12][0] == 'c';
    }
  }

  /** Parsing what is written returns the candidate, with or without the prefix `a=`. */
  method RoundTrip(c: Candidate, attribute: bool) returns (read: Option<Candidate>)
    requires Writable(c)
    ensures read == Some(c)
  {
    var line := WriteCandidate(c);
    ghost var body := Join(Tokens(c));
    PrefixIsSkipped(body);
    if attribute {
      line := "a=" + line;
    }
    assert Body(line) == body;
    WritableIsSpaceFree(c);
    SplitOfTokens(c);
    TokensRoundTrip(c);
    read := ParseCandidate(line);
  }
}
