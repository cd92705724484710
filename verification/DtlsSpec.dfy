/** What one call on `OpenSSLStreamAdapter` does (rtc_base/openssl_stream_adapter.cc),
    as functions on its state. OpenSSL, the wrapped stream and the application's
    event handlers are a script of answers that nothing is assumed about. */
module DtlsSpec {

  import opened Basics

  type Chain = seq<Certificate>

  const SSL_ERROR_NONE := 0
  const SSL_ERROR_WANT_READ := 2
  const SSL_ERROR_WANT_WRITE := 3
  const SSL_ERROR_ZERO_RETURN := 6
  const SSE_MSG_TRUNC := 0xff0001
  const FLUSH_BUFFER: nat := 2048

  /** A certificate, as far as the adapter looks at it. */
  datatype Certificate = Certificate(digests: map<string, seq<byte>>)

  function DigestSize(algorithm: string): Option<nat> {
    if algorithm == "md5" then Some(16)
    else if algorithm == "sha-1" then Some(20)
    else if algorithm == "sha-224" then Some(28)
    else if algorithm == "sha-256" then Some(32)
    else if algorithm == "sha-384" then Some(48)
    else if algorithm == "sha-512" then Some(64)
    else None
  }

  /** The first certificate of the chain has this digest. */
  predicate Matches(chain: Chain, algorithm: string, value: seq<byte>) {
    |chain| > 0 && algorithm in chain[0].digests && chain[0].digests[algorithm] == value
  }

  datatype SslState = SslNone | SslWait | SslConnecting | SslConnected | SslError | SslClosed {
    predicate Ended() {
      SslError? || SslClosed?
    }

    /** Negotiation only moves forward. */
    function Rank(): nat {
      match this
      case SslNone => 0
      case SslWait => 1
      case SslConnecting => 2
      case SslConnected => 3
      case _ => 4
    }
  }

  datatype StreamState = Opening | Open | Closed

  datatype StreamResult = Success(count: nat) | Block | Eos | Failure(code: int) | PassedThrough

  datatype DigestError = NoError | UnknownAlgorithm | InvalidLength | VerificationFailed

  datatype StreamEvents = StreamEvents(open: bool, read: bool, write: bool, close: bool) {
    predicate Any() {
      open || read || write || close
    }
  }

  const NO_EVENTS := StreamEvents(false, false, false, false)
  const CLOSE_ONLY := StreamEvents(false, false, false, true)
  const ALL_OPEN := StreamEvents(true, true, true, false)

  /** Everything the adapter reacts to: calls of the application, events of the
      wrapped stream, its own timer and its own posted tasks. */
  datatype Call =
    | StartSSL(streamOpen: bool)
    | Read(length: nat)
    | Write(length: nat)
    | Close
    | SetPeerCertificateDigest(algorithm: string, value: seq<byte>)
    | StreamEvent(events: StreamEvents, err: int)
    | TimerFires
    | RunPosted

  /** One answer of the surroundings. Each question reads the parts it needs: the
      chain OpenSSL presents to the verify callback, its error code, a count, a
      flag, or the calls that the handlers of an event make before they return. */
  datatype Answer = Answer(presented: Option<Chain>, sslError: int, count: nat, yes: bool, calls: seq<Call>)

  const SILENCE := Answer(None, SSL_ERROR_WANT_READ, 0, false, [])

  /** The bytes OpenSSL reports as moved: at least one, at most `limit`. */
  function Moved(answered: nat, limit: nat): (n: nat)
    requires limit > 0
    ensures 1 <= n <= limit
  {
    if answered == 0 then 1 else Min(answered, limit)
  }

  // ---------- The history ----------

  /** `late` marks a digest that arrived when the connection was already up and
      matched the certificate the peer had presented. */
  datatype Happening =
    | Started
    | ClearText
    | Presented(chain: Chain)
    | DigestSet(algorithm: string, value: seq<byte>, late: bool)
    | SslData
    | Signaled(events: StreamEvents, err: int)
    | Posted(events: StreamEvents)
    | Delivered(events: StreamEvents)
    | HandshakeError

  datatype Log = Start | Upon(before: Log, last: Happening) {

    ghost predicate HasStarted() {
      Upon? && (last.Started? || before.HasStarted())
    }

    ghost predicate HasChain(chain: Chain) {
      Upon? && (last == Presented(chain) || before.HasChain(chain))
    }

    ghost predicate HasDigest(algorithm: string, value: seq<byte>) {
      Upon? && ((last.DigestSet? && last.algorithm == algorithm && last.value == value)
                || before.HasDigest(algorithm, value))
    }

    /** The peer presented a certificate whose digest is one the application gave. */
    ghost predicate Authenticated() {
      exists chain: Chain, algorithm: string, value: seq<byte> ::
        HasChain(chain) && HasDigest(algorithm, value) && Matches(chain, algorithm, value)
    }

    lemma AuthenticatedStays(happening: Happening)
      ensures Authenticated() ==> Upon(this, happening).Authenticated()
    {
      if Authenticated() {
        var chain, algorithm, value :|
          HasChain(chain) && HasDigest(algorithm, value) && Matches(chain, algorithm, value);
        assert Upon(this, happening).HasChain(chain) && Upon(this, happening).HasDigest(algorithm, value);
      }
    }

    ghost predicate HasLateDigest() {
      Upon? && ((last.DigestSet? && last.late) || before.HasLateDigest())
    }

    /** The chain that the peer presented last. */
    ghost function LastChain(): Option<Chain> {
      if Start? then None else if last.Presented? then Some(last.chain) else before.LastChain()
    }

    /** A digest was set that is not that of the chain presented last. */
    ghost predicate Rejects() {
      && Upon? && last.DigestSet? && before.LastChain().Some?
      && !Matches(before.LastChain().value, last.algorithm, last.value)
    }

    ghost predicate HasRejected() {
      Upon? && (Rejects() || before.HasRejected())
    }

    /** How many `SE_OPEN` were signaled or posted since the start of negotiation. */
    ghost function Opens(): nat {
      if Start? then 0
      else before.Opens() + if (last.Signaled? || last.Posted?) && last.events.open && before.HasStarted() then 1 else 0
    }

    /** How many more events were posted than delivered. */
    ghost function Outstanding(): int {
      if Start? then 0
      else before.Outstanding() + (if last.Posted? then 1 else if last.Delivered? then -1 else 0)
    }

    /** How often OpenSSL was asked to move application data. */
    ghost function Moves(): nat {
      if Start? then 0 else before.Moves() + if last.SslData? then 1 else 0
    }

    /** No clear text after the start; with client authentication, no application
        data through OpenSSL before the peer is authenticated; and with or without
        it none once a digest has rejected the peer. */
    ghost predicate Safe(clientAuth: bool) {
      Upon? ==>
        && before.Safe(clientAuth)
        && (last.ClearText? ==> !before.HasStarted())
        && (last.SslData? && clientAuth ==> before.Authenticated())
        && (last.SslData? ==> !before.HasRejected())
    }
  }

  // ---------- The adapter ----------

  datatype Adapter = Adapter(
    clientAuth: bool, dtls: bool,
    state: SslState, errorCode: int, readNeedsWrite: bool, writeNeedsRead: bool,
    ssl: bool, context: bool, timer: bool,
    chain: Option<Chain>, verified: bool, digestAlgorithm: string, digestValue: seq<byte>,
    posted: seq<StreamEvents>, script: seq<Answer>, log: Log)
  {
    predicate Waiting() {
      clientAuth && !verified
    }

    predicate HasDigest() {
      digestAlgorithm != "" && digestValue != []
    }

    /** What every run keeps. */
    ghost predicate Good() {
      && ssl == context == (state.SslConnecting? || state.SslConnected?)
      && (chain.Some? ==> ssl && log.HasChain(chain.value))
      && (!state.Ended() ==> chain == log.LastChain() && !log.HasRejected())
      && (timer ==> state.SslConnecting?)
      && (log.HasStarted() ==> !state.SslNone?)
      && (state.SslNone? || state.SslClosed? || log.HasStarted())
      && (digestAlgorithm == "" <==> digestValue == [])
      && (HasDigest() ==> log.HasDigest(digestAlgorithm, digestValue))
      && (verified ==> HasDigest() && log.Authenticated())
      && log.Safe(clientAuth)
      && (log.HasLateDigest() ==> HasDigest() && verified)
      && GoodOpens()
    }

    ghost predicate GoodOpens() {
      && (state.Rank() < 3 ==> log.Opens() == 0 && !log.HasLateDigest())
      && (state.SslConnected? ==> log.Opens() == Due())
      && (state.Ended() ==> log.Opens() == 0 || log.Opens() == Due())
      && (log.HasLateDigest() ==> log.Opens() == Due())
    }

    /** The `SE_OPEN` that a connection is due: one when it comes up, or when the
        digest arrives if that was waited for; and, without client authentication,
        a second one for a late digest. */
    ghost function Due(): nat {
      if clientAuth then (if verified then 1 else 0)
      else (if log.HasLateDigest() then 2 else 1)
    }

    function Next(): Answer {
      if script == [] then SILENCE else script[0]
    }

    function Rest(): (s: Adapter)
      ensures s.Follows(this) && (Good() ==> s.Good())
    {
      if script == [] then this else this.(script := script[1..])
    }

    function StopTimer(): (s: Adapter)
      requires Good()
      ensures s.Follows(this) && s.Good()
    {
      this.(timer := false)
    }

    function Log(happening: Happening): (s: Adapter)
      ensures log.Authenticated() ==> s.log.Authenticated()
      ensures s.log.HasStarted() <==> log.HasStarted() || happening.Started?
      ensures s.log.HasLateDigest() <==> log.HasLateDigest() || (happening.DigestSet? && happening.late)
    {
      log.AuthenticatedStays(happening);
      this.(log := Upon(log, happening))
    }

    // ---------- The peer's certificate ----------

    function VerifyPeerCertificate(): (s: Adapter)
      requires Good() && (state.SslConnected? ==> !clientAuth || verified)
      ensures s.Good() && s.Follows(this) && s.state == state && s.timer == timer && (verified ==> s.verified)
      ensures s.log == log && s.posted == posted
    {
      if HasDigest() && chain.Some? && Matches(chain.value, digestAlgorithm, digestValue) then this.(verified := true)
      else this
    }

    /** `SSLVerifyCallback`, when OpenSSL calls it. */
    function Present(presented: Option<Chain>): (s: Adapter)
      requires Good() && ssl && (state.SslConnected? ==> !Waiting())
      ensures s.Good() && s.Follows(this)
      ensures s.state == state && s.timer == timer && (verified ==> s.verified)
      ensures s.log.Moves() == log.Moves()
    {
      if presented.None? then this
      else
        var kept := this.(chain := presented).Log(Presented(presented.value));
        assert kept.Good();
        if digestAlgorithm == "" then kept else kept.VerifyPeerCertificate()
    }

    function Store(algorithm: string, value: seq<byte>): Adapter {
      this.(digestAlgorithm := algorithm, digestValue := value)
          .Log(DigestSet(algorithm, value, state.SslConnected? && chain.Some?
                         && Matches(chain.value, algorithm, value)))
    }

    /** Takes a digest that there is no reason to announce. */
    function Learn(algorithm: string, value: seq<byte>): (s: Adapter)
      requires Good() && !HasDigest() && algorithm != "" && value != []
      requires chain.Some? ==> !state.SslConnected? && Matches(chain.value, algorithm, value)
      ensures s.Good() && s.Follows(this)
      ensures s.log.Opens() == log.Opens() && s.posted == posted
    {
      Store(algorithm, value)
    }

    /** Takes the digest of the certificate presented, with the connection up. */
    function LearnLate(algorithm: string, value: seq<byte>): (s: Adapter)
      requires Good() && !HasDigest() && algorithm != "" && value != []
      requires state.SslConnected? && chain.Some? && Matches(chain.value, algorithm, value)
      ensures s.Good() && s.Follows(this)
      ensures s.log.Opens() == log.Opens() + 1 && s.posted == posted + [ALL_OPEN]
    {
      Store(algorithm, value).(verified := true, posted := posted + [ALL_OPEN]).Log(Posted(ALL_OPEN))
    }

    /** Takes a digest that is not that of the certificate presented. */
    function Reject(algorithm: string, value: seq<byte>): (s: Adapter)
      requires Good() && !HasDigest() && algorithm != "" && value != []
      requires chain.Some? && !Matches(chain.value, algorithm, value)
      ensures s.Good() && s.Follows(this) && s.log.Rejects()
      ensures s.log.Opens() == log.Opens()
    {
      Store(algorithm, value).InError(-1)
    }

    /** A digest posts an `SE_OPEN` exactly when it is well-formed, the connection is
        up, and it is that of the certificate presented. One that is not that of
        the certificate presented ends the connection in error, and nothing is
        posted. */
    function SetDigest(algorithm: string, value: seq<byte>): (r: (Adapter, DigestError))
      requires Good() && !verified && !HasDigest()
      ensures r.0.Good() && r.0.Follows(this)
      ensures r.0.log.Opens() - log.Opens() ==
                if DigestSize(algorithm) == Some(|value|) && state.SslConnected? && chain.Some?
                   && Matches(chain.value, algorithm, value) then 1 else 0
      ensures r.1 == UnknownAlgorithm <==> DigestSize(algorithm).None?
      ensures r.1 == InvalidLength <==> DigestSize(algorithm).Some? && DigestSize(algorithm).value != |value|
      ensures r.1 == VerificationFailed <==>
                DigestSize(algorithm) == Some(|value|) && chain.Some? && !Matches(chain.value, algorithm, value)
      ensures r.1 == UnknownAlgorithm || r.1 == InvalidLength ==> r.0 == this
      ensures r.1 == VerificationFailed ==> r.0.state == SslError && r.0.errorCode == -1 && r.0.posted == posted
      ensures r.1 == NoError ==>
                && r.0.state == state && r.0.chain == chain
                && r.0.digestAlgorithm == algorithm && r.0.digestValue == value && r.0.verified == chain.Some?
                && r.0.posted == posted + (if state.SslConnected? && chain.Some? then [ALL_OPEN] else [])
    {
      if DigestSize(algorithm).None? then (this, UnknownAlgorithm)
      else if DigestSize(algorithm).value != |value| then (this, InvalidLength)
      else TakeDigest(algorithm, value)
    }

    /** A well-formed digest is taken and, if there is a chain, compared with it. */
    function TakeDigest(algorithm: string, value: seq<byte>): (r: (Adapter, DigestError))
      requires Good() && !verified && !HasDigest() && algorithm != "" && value != []
      ensures r.0.Good() && r.0.Follows(this)
      ensures r.0.log.Opens() - log.Opens() ==
                if state.SslConnected? && chain.Some? && Matches(chain.value, algorithm, value) then 1 else 0
      ensures r.1 == VerificationFailed <==> chain.Some? && !Matches(chain.value, algorithm, value)
      ensures r.1 == VerificationFailed || r.1 == NoError
      ensures r.1 == VerificationFailed ==> r.0.state == SslError && r.0.errorCode == -1 && r.0.posted == posted
      ensures r.1 == NoError ==>
                && r.0.state == state && r.0.chain == chain
                && r.0.digestAlgorithm == algorithm && r.0.digestValue == value && r.0.verified == chain.Some?
                && r.0.posted == posted + (if state.SslConnected? && chain.Some? then [ALL_OPEN] else [])
    {
      if chain.None? then (Learn(algorithm, value), NoError)
      else if !Matches(chain.value, algorithm, value) then (Reject(algorithm, value), VerificationFailed)
      else (Confirm(algorithm, value), NoError)
    }

    /** Takes the digest of the certificate presented. */
    function Confirm(algorithm: string, value: seq<byte>): (s: Adapter)
      requires Good() && !HasDigest() && algorithm != "" && value != []
      requires chain.Some? && Matches(chain.value, algorithm, value)
      ensures s.Good() && s.Follows(this)
      ensures s.log.Opens() - log.Opens() == if state.SslConnected? then 1 else 0
      ensures s.state == state && s.chain == chain && s.digestAlgorithm == algorithm && s.digestValue == value
      ensures s.verified && s.posted == posted + (if state.SslConnected? then [ALL_OPEN] else [])
    {
      if state.SslConnected? then LearnLate(algorithm, value) else Learn(algorithm, value).VerifyPeerCertificate()
    }

    // ---------- Ending ----------

    function Cleanup(): (s: Adapter)
      requires Good()
      ensures s.Good() && s.Follows(this) && s.state.Ended()
      ensures s.log == log && s.posted == posted && !s.ssl && !s.context && s.chain.None? && !s.timer
      ensures s.state.SslError? == state.SslError? && s.errorCode == (if state.SslError? then errorCode else 0)
    {
      this.(state := if state.SslError? then state else SslClosed,
            errorCode := if state.SslError? then errorCode else 0,
            ssl := false, context := false, chain := None, timer := false)
    }

    /** `Error` without a signal. */
    function Fail(err: int): (s: Adapter)
      requires Good() || GoodToBegin()
      requires log.HasStarted()
      ensures s.Good() && s.Follows(this) && s.state.SslError? && s.errorCode == err
      ensures s.log == log && s.posted == posted && !s.ssl && !s.context && s.chain.None? && !s.timer
    {
      InError(err)
    }

    function InError(err: int): Adapter {
      this.(state := SslError, errorCode := err, ssl := false, context := false, chain := None, timer := false)
    }

    // ---------- Data ----------

    function GetState(): StreamState {
      match state
      case SslWait => Opening
      case SslConnecting => Opening
      case SslConnected => if Waiting() then Opening else Open
      case _ => Closed
    }

    function Write(length: nat): (r: (Adapter, StreamResult))
      requires Good()
      ensures r.0.Good() && r.0.Follows(this)
    {
      match state
      case SslNone => (Log(ClearText), PassedThrough)
      case SslWait => (this, Block)
      case SslConnecting => (this, Block)
      case SslConnected =>
        if Waiting() then (this, Block)
        else if length == 0 then (this, Success(0))
        else SslWrite(length)
      case _ => (this, Failure(errorCode))
    }

    function LogData(): (s: Adapter)
      requires Good() && state.SslConnected? && !Waiting()
      ensures s.Good() && s.Follows(this) && s.state == state && !s.Waiting()
      ensures s.log.Moves() == log.Moves() + 1
    {
      Log(SslData)
    }

    /** OpenSSL is asked to move application data; it may present a chain while at it. */
    function MoveData(): (s: Adapter)
      requires Good() && state.SslConnected? && !Waiting()
      ensures s.Good() && s.Follows(this) && s.state == state && !s.Waiting()
      ensures s.log.Moves() == log.Moves() + 1
    {
      Rest().LogData().Present(Next().presented)
    }

    function SslWrite(length: nat): (r: (Adapter, StreamResult))
      requires Good() && state.SslConnected? && !Waiting() && length > 0
      ensures r.0.Good() && r.0.Follows(this)
      ensures r.0.log.Moves() > log.Moves()
    {
      this.(writeNeedsRead := false).MoveData().AfterWrite(Next(), length)
    }

    /** What follows from OpenSSL's answer to a write. */
    function AfterWrite(a: Answer, length: nat): (r: (Adapter, StreamResult))
      requires Good() && state.SslConnected? && !Waiting() && length > 0
      ensures r.0.Good() && r.0.Follows(this)
      ensures r.0.log.Moves() >= log.Moves()
    {
      if a.sslError == SSL_ERROR_NONE then (this, Success(Moved(a.count, length)))
      else if a.sslError == SSL_ERROR_WANT_READ then (this.(writeNeedsRead := true), Block)
      else if a.sslError == SSL_ERROR_WANT_WRITE then (this, Block)
      else (Fail(a.sslError), Failure(a.sslError))
    }

    function Read(length: nat): (r: (Adapter, StreamResult))
      requires Good()
      ensures r.0.Good() && r.0.Follows(this)
    {
      match state
      case SslNone => (Log(ClearText), PassedThrough)
      case SslWait => (this, Block)
      case SslConnecting => (this, Block)
      case SslConnected =>
        if Waiting() then (this, Block)
        else if length == 0 then (this, Success(0))
        else SslRead(length)
      case SslClosed => (this, Eos)
      case SslError => (this, Failure(errorCode))
    }

    function SslRead(length: nat): (r: (Adapter, StreamResult))
      requires Good() && state.SslConnected? && !Waiting() && length > 0
      ensures r.0.Good() && r.0.Follows(this)
      ensures r.0.log.Moves() > log.Moves()
    {
      this.(readNeedsWrite := false).MoveData().AfterRead(Next(), length)
    }

    /** What follows from OpenSSL's answer to a read. */
    function AfterRead(a: Answer, length: nat): (r: (Adapter, StreamResult))
      requires Good() && state.SslConnected? && !Waiting() && length > 0
      ensures r.0.Good() && r.0.Follows(this)
      ensures r.0.log.Moves() >= log.Moves()
    {
      if a.sslError == SSL_ERROR_NONE then
        if dtls && Next().count > 0 then (DropRest(), Failure(SSE_MSG_TRUNC))
        else (if dtls then Rest() else this, Success(Moved(a.count, length)))
      else if a.sslError == SSL_ERROR_WANT_READ then (this, Block)
      else if a.sslError == SSL_ERROR_WANT_WRITE then (this.(readNeedsWrite := true), Block)
      else if a.sslError == SSL_ERROR_ZERO_RETURN then (Cleanup(), Eos)
      else (Fail(a.sslError), Failure(a.sslError))
    }

    /** With DTLS a read is a whole message: what is still pending is lost. */
    function DropRest(): (s: Adapter)
      requires Good() && state.SslConnected? && !Waiting()
      ensures s.log.Moves() >= log.Moves()
      ensures s.Good() && s.Follows(this)
    {
      Rest().FlushInput(Next().count)
    }

    /** Reads and drops the `left` bytes that remain of a message. */
    function FlushInput(left: nat): (s: Adapter)
      requires Good() && (left > 0 ==> state.SslConnected? && !Waiting())
      ensures s.Good() && s.Follows(this)
      ensures s.log.Moves() >= log.Moves()
      ensures left > 0 ==> s.state.SslConnected? || s.state.SslError?
      decreases left
    {
      if left == 0 then this
      else
        var (s, rest) := FlushSome(left);
        s.FlushInput(rest)
    }

    /** One read of `FlushInput`; nothing is left to do when it fails. */
    function FlushSome(left: nat): (r: (Adapter, nat))
      requires Good() && state.SslConnected? && !Waiting() && left > 0
      ensures r.0.Good() && r.0.Follows(this) && r.1 < left
      ensures Next().sslError != SSL_ERROR_NONE ==>
                r.0.state.SslError? && r.0.errorCode == Next().sslError && r.1 == 0
      ensures Next().sslError == SSL_ERROR_NONE ==>
                && r.0.state.SslConnected? && !r.0.Waiting()
                && r.1 == left - Moved(Next().count, Min(FLUSH_BUFFER, left))
      ensures r.0.log.Moves() >= log.Moves()
    {
      if Next().sslError != SSL_ERROR_NONE then (MoveData().Fail(Next().sslError), 0)
      else (MoveData(), left - Moved(Next().count, Min(FLUSH_BUFFER, left)))
    }

    // ---------- Negotiation, events and their handlers ----------

    predicate Permitted(call: Call) {
      match call
      case SetPeerCertificateDigest(_, _) => !verified && !HasDigest()
      case StreamEvent(events, _) => events.open ==> state.SslNone? || state.SslWait?
      case TimerFires => timer
      case RunPosted => posted != []
      case _ => true
    }

    ghost predicate Follows(s: Adapter) {
      && s.clientAuth == clientAuth && s.dtls == dtls
      && |script| <= |s.script| && state.Rank() >= s.state.Rank()
      && (s.log.HasStarted() ==> log.HasStarted())
      && log.Outstanding() - |posted| == s.log.Outstanding() - |s.posted|
    }

    /** A call, if its caller may make it now. */
    function Make(call: Call): (s: Adapter)
      requires Good()
      ensures s.Good() && s.Follows(this)
      decreases |script|, 11
    {
      if Permitted(call) then Serve(call) else this
    }

    /** The first of the posted events is delivered. */
    function TakePosted(): (s: Adapter)
      requires Good() && posted != []
      ensures s.Good() && s.Follows(this)
    {
      this.(posted := posted[1..]).Log(Delivered(posted[0]))
    }

    function DeliverPosted(): (s: Adapter)
      requires Good() && posted != []
      ensures s.Good() && s.Follows(this)
      decreases |script|, 1
    {
      TakePosted().RunHandlers()
    }

    /** A call of the application. */
    function Serve(call: Call): (s: Adapter)
      requires Good() && Permitted(call)
      ensures s.Good() && s.Follows(this)
      decreases |script|, 10
    {
      match call
      case StartSSL(streamOpen) => Begin(streamOpen).0
      case Read(length) => Read(length).0
      case Write(length) => Write(length).0
      case Close => Cleanup()
      case SetPeerCertificateDigest(algorithm, value) => SetDigest(algorithm, value).0
      case _ => React(call)
    }

    function React(call: Call): (s: Adapter)
      requires Good() && Permitted(call)
      ensures s.Good() && s.Follows(this)
      decreases |script|, 9
    {
      match call
      case StreamEvent(events, err) => OnEvent(events, err)
      case TimerFires => OnTimer()
      case RunPosted => DeliverPosted()
      case _ => this
    }

    function MakeAll(calls: seq<Call>): (s: Adapter)
      requires Good()
      ensures s.Good() && s.Follows(this)
      decreases |script|, 12, |calls|
    {
      if calls == [] then this else Make(calls[0]).MakeAll(calls[1..])
    }

    /** The handlers of a signal run, with the calls they make. */
    function RunHandlers(): (s: Adapter)
      requires Good()
      ensures s.Good() && s.Follows(this)
      decreases |script|, 0
    {
      if script == [] then this else Rest().MakeAll(script[0].calls)
    }

    function Signal(events: StreamEvents, err: int): (s: Adapter)
      requires Good() && (events.open ==> !log.HasStarted())
      ensures s.Good() && s.Follows(this)
      decreases |script|, 1
    {
      Log(Signaled(events, err)).RunHandlers()
    }

    /** `StartSSL`. */
    function Begin(streamOpen: bool): (r: (Adapter, int))
      requires Good()
      ensures r.0.Good() && r.0.Follows(this)
      decreases |script|, 6
    {
      if !state.SslNone? then (this, -1)
      else if !streamOpen then (AwaitOpen(), 0)
      else AwaitOpen().Connect()
    }

    function AwaitOpen(): (s: Adapter)
      requires Good() && state.SslNone?
      ensures s.Good() && s.Follows(this) && s.state.SslWait? && s.log.HasStarted()
    {
      this.(state := SslWait).Log(Started)
    }

    /** The rest of `StartSSL` on an open stream. */
    function Connect(): (r: (Adapter, int))
      requires Good() && state.SslWait?
      ensures r.0.Good() && r.0.Follows(this) && r.0.log.HasStarted()
      ensures r.1 != 0 ==> r.0.state.SslError? && r.0.errorCode == r.1
      decreases |script|, 5
    {
      var (s, err) := this.(state := SslConnecting).BeginSSL();
      if err != 0 then (s.Fail(err), err) else (s, 0)
    }

    /** Just before negotiation begins: connecting, but without an SSL object yet. */
    ghost predicate GoodToBegin() {
      state.SslConnecting? && this.(state := SslWait, context := false).Good()
    }

    /** Negotiation has succeeded: the connection is open, unless the peer still
        has to be verified. */
    function ComeUp(): (s: Adapter)
      requires Good() && state.SslConnecting? && !timer
      ensures s.Good() && s.Follows(this)
      ensures s.state.SslConnected? && s.log == if Waiting() then log else Upon(log, Signaled(ALL_OPEN, 0))
    {
      var t := this.(state := SslConnected);
      if Waiting() then t else t.Log(Signaled(ALL_OPEN, 0))
    }

    /** The setup fails at one of three points, or negotiation starts. */
    function BeginSSL(): (r: (Adapter, int))
      requires GoodToBegin()
      ensures r.0.Good() || (r.1 != 0 && r.0.GoodToBegin())
      ensures r.0.Follows(this) && r.0.log.HasStarted()
      decreases |script|, 4
    {
      var step := Next().count;
      if step == 0 then (Rest(), -1)
      else if step <= 2 then (Rest().(context := true), -1)
      else Rest().(context := true, ssl := true).ContinueSSL()
    }

    /** OpenSSL negotiates for as long as it can. */
    function Negotiate(): (s: Adapter)
      requires Good() && state.SslConnecting?
      ensures s.Good() && s.Follows(this) && s.state == state && !s.timer
    {
      StopTimer().Rest().Present(Next().presented)
    }

    function SignalHandshakeError(): (s: Adapter)
      requires Good()
      ensures s.Good() && s.Follows(this)
      decreases |script|, 1
    {
      Log(HandshakeError).RunHandlers()
    }

    function ContinueSSL(): (r: (Adapter, int))
      requires Good() && state.SslConnecting?
      ensures r.0.Good() && r.0.Follows(this)
      decreases |script|, 3
    {
      Negotiate().AfterNegotiation(Next())
    }

    function AfterNegotiation(a: Answer): (r: (Adapter, int))
      requires Good() && state.SslConnecting? && !timer
      ensures r.0.Good() && r.0.Follows(this)
      decreases |script|, 2
    {
      if a.sslError == SSL_ERROR_NONE then
        (if Waiting() then ComeUp() else ComeUp().RunHandlers(), 0)
      else if a.sslError == SSL_ERROR_WANT_READ then (this.(timer := a.yes), 0)
      else if a.sslError == SSL_ERROR_WANT_WRITE then (this, 0)
      else (SignalHandshakeError(), a.sslError)
    }

    /** The timer: OpenSSL retransmits, and negotiation goes on; an error that
        comes out of it is dropped. */
    function OnTimer(): (s: Adapter)
      requires Good() && timer
      ensures s.Good() && s.Follows(this)
      decreases |script|, 5
    {
      StopTimer().Rest().ContinueSSL().0
    }

    function OnEvent(events: StreamEvents, err: int): (s: Adapter)
      requires Good() && (events.open ==> state.SslNone? || state.SslWait?)
      ensures s.Good() && s.Follows(this)
      decreases |script|, 8
    {
      if events.open && state.SslWait? then OnOpen(events, err)
      else OnReady(events, err, NO_EVENTS.(open := events.open))
    }

    /** The wrapped stream has opened, and negotiation can begin. */
    function OnOpen(events: StreamEvents, err: int): (s: Adapter)
      requires Good() && state.SslWait?
      ensures s.Good() && s.Follows(this)
      decreases |script|, 7
    {
      var (s, failed) := this.(state := SslConnecting).BeginSSL();
      s.AfterSetup(failed, events, err)
    }

    function AfterSetup(failed: int, events: StreamEvents, err: int): (s: Adapter)
      requires (Good() || (failed != 0 && GoodToBegin())) && log.HasStarted()
      ensures s.Good() && s.Follows(this)
      decreases |script|, 6
    {
      if failed != 0 then FailAndClose(failed) else OnReady(events, err, NO_EVENTS)
    }

    /** `Error` with a signal. */
    function FailAndClose(err: int): (s: Adapter)
      requires Good() || GoodToBegin()
      requires log.HasStarted()
      ensures s.Good() && s.Follows(this)
      decreases |script|, 2
    {
      Fail(err).Signal(CLOSE_ONLY, err)
    }

    /** The part of `OnEvent` about readable and writable, and what follows it. */
    function OnReady(events: StreamEvents, err: int, signal: StreamEvents): (s: Adapter)
      requires Good() && (signal.open ==> !log.HasStarted())
      ensures s.Good() && s.Follows(this)
      decreases |script|, 5
    {
      if (events.read || events.write) && state.SslConnecting? then
        OnNegotiable(events, err, signal)
      else if state.SslNone? then
        OnClosing(events, err, signal.(read := events.read, write := events.write))
      else if state.SslConnected? then
        OnClosing(events, err, signal.(read := events.read || (events.write && readNeedsWrite),
                                       write := events.write || (events.read && writeNeedsRead)))
      else
        OnClosing(events, err, signal)
    }

    /** Negotiation goes on when the wrapped stream is readable or writable. */
    function OnNegotiable(events: StreamEvents, err: int, signal: StreamEvents): (s: Adapter)
      requires Good() && state.SslConnecting? && (signal.open ==> !log.HasStarted())
      ensures s.Good() && s.Follows(this)
      decreases |script|, 4
    {
      var (s, failed) := ContinueSSL();
      if failed != 0 then s.FailAndClose(failed) else s.OnClosing(events, err, signal)
    }

    function OnClosing(events: StreamEvents, err: int, signal: StreamEvents): (s: Adapter)
      requires Good() && (signal.open ==> !log.HasStarted())
      ensures s.Good() && s.Follows(this)
      decreases |script|, 2
    {
      if events.close then Cleanup().Signal(signal.(close := true), err)
      else if signal.Any() then Signal(signal, 0)
      else this
    }
  }

  // ---------- What every run keeps ----------

  function Fresh(clientAuth: bool, dtls: bool, script: seq<Answer>): (a: Adapter)
    ensures a.Good() && a.state == SslNone && a.errorCode == 0 && a.log == Start && a.posted == []
    ensures !a.HasDigest() && !a.verified && !a.readNeedsWrite && !a.writeNeedsRead
  {
    Adapter(clientAuth, dtls, SslNone, 0, false, false, false, false, false, None, false, "", [], [], script, Start)
  }

  /** The history `log` has passed through `point`. */
  ghost predicate Passed(log: Log, point: Log) {
    log == point || (log.Upon? && Passed(log.before, point))
  }

  lemma {:induction false} SafeAtEveryPoint(log: Log, clientAuth: bool, point: Log)
    requires log.Safe(clientAuth) && Passed(log, point)
    ensures point.Safe(clientAuth)
  {
    if log != point {
      SafeAtEveryPoint(log.before, clientAuth, point);
    }
  }

  /** In every run, whatever OpenSSL answers and the handlers call: nothing passes
      in clear text once negotiation has started, and with client authentication
      application data reaches OpenSSL only after the peer has presented a
      certificate with a digest that the application gave. */
  lemma EveryRunIsSafe(clientAuth: bool, dtls: bool, script: seq<Answer>, calls: seq<Call>, point: Log)
    requires point.Upon? && Passed(Fresh(clientAuth, dtls, script).MakeAll(calls).log, point)
    ensures point.last.ClearText? ==> !point.before.HasStarted()
    ensures point.last.SslData? && clientAuth ==> point.before.Authenticated()
    ensures point.last.SslData? ==> !point.before.HasRejected()
  {
    var end := Fresh(clientAuth, dtls, script).MakeAll(calls);
    assert end.Good();
    SafeAtEveryPoint(end.log, clientAuth, point);
  }

  /** `SE_OPEN` is signaled or posted at most once after the start of negotiation,
      exactly when there was client authentication or no late digest. */
  lemma OpensOnceIff(clientAuth: bool, dtls: bool, script: seq<Answer>, calls: seq<Call>)
    ensures var log := Fresh(clientAuth, dtls, script).MakeAll(calls).log;
            log.Opens() <= 1 <==> clientAuth || !log.HasLateDigest()
  {
    assert Fresh(clientAuth, dtls, script).MakeAll(calls).Good();
  }

  /** Every event posted is delivered once, or is still to be. */
  lemma PostedAreDelivered(clientAuth: bool, dtls: bool, script: seq<Answer>, calls: seq<Call>)
    ensures var end := Fresh(clientAuth, dtls, script).MakeAll(calls);
            end.log.Outstanding() == |end.posted|
  {
    assert Fresh(clientAuth, dtls, script).MakeAll(calls).Follows(Fresh(clientAuth, dtls, script));
  }

  /** What the adapter compares is the first certificate of the chain. */
  lemma FirstCertificateDecides(first: Certificate, rest: Chain, algorithm: string, value: seq<byte>)
    ensures Matches([first] + rest, algorithm, value) <==>
              algorithm in first.digests && first.digests[algorithm] == value
    ensures !Matches([], algorithm, value)
  {
  }

  /** The algorithms for digests, with their sizes in bytes, as in FIPS 180-4 and
      RFC 1321; no other is known. */
  lemma DigestSizes(algorithm: string)
    ensures DigestSize("md5") == Some(16) && DigestSize("sha-1") == Some(20) && DigestSize("sha-224") == Some(28)
    ensures DigestSize("sha-256") == Some(32) && DigestSize("sha-384") == Some(48) && DigestSize("sha-512") == Some(64)
    ensures DigestSize(algorithm).Some? <==>
              algorithm in {"md5", "sha-1", "sha-224", "sha-256", "sha-384", "sha-512"}
  {
  }

  // ---------- What the caller gets ----------

  /** Asking OpenSSL to move data uses up its answer, and changes nothing that the
      outcome depends on. */
  lemma MoveDataKeeps(a: Adapter)
    requires a.Good() && a.state.SslConnected? && !a.Waiting()
    ensures var s := a.MoveData();
            && s.script == a.Rest().script && s.dtls == a.dtls && s.state == a.state && s.errorCode == a.errorCode
            && s.readNeedsWrite == a.readNeedsWrite && s.writeNeedsRead == a.writeNeedsRead
  {
    PresentKeeps(a.Rest().LogData(), a.Next().presented);
  }

  lemma PresentKeeps(a: Adapter, presented: Option<Chain>)
    requires a.Good() && a.ssl && (a.state.SslConnected? ==> !a.Waiting())
    ensures var s := a.Present(presented);
            s == a.(chain := s.chain, verified := s.verified, log := s.log)
  {
  }

  /** A chain that is presented is kept, and verifies the peer exactly if its digest
      is known and is that of the first certificate. */
  lemma PresentOutcome(a: Adapter, presented: Option<Chain>)
    requires a.Good() && a.ssl && (a.state.SslConnected? ==> !a.Waiting())
    ensures presented.None? ==> a.Present(presented) == a
    ensures presented.Some? ==>
              var s := a.Present(presented);
              && s.chain == presented && s.log == Upon(a.log, Presented(presented.value))
              && s.verified ==
                 (a.verified || (a.HasDigest() && Matches(presented.value, a.digestAlgorithm, a.digestValue)))
  {
  }

  /** The outcome of a read that reaches OpenSSL, for each of its answers. */
  lemma ReadOutcome(a: Adapter, length: nat)
    requires a.Good() && a.state.SslConnected? && !a.Waiting() && length > 0
    ensures var (s, r) := a.Read(length);
            ReadAnswered(s, r, a.Next(), length, a.dtls && a.Rest().Next().count > 0)
  {
    var b := a.(readNeedsWrite := false);
    MoveDataKeeps(b);
    AfterReadOutcome(b.MoveData(), a.Next(), length);
  }

  /** `lost` says that a message was longer than what was asked for. */
  predicate ReadAnswered(s: Adapter, r: StreamResult, answer: Answer, length: nat, lost: bool)
    requires length > 0
  {
    var e := answer.sslError;
    if e == SSL_ERROR_NONE then
      if lost then r == Failure(SSE_MSG_TRUNC) else r == Success(Moved(answer.count, length)) && s.state.SslConnected?
    else if e == SSL_ERROR_WANT_READ then r == Block && s.state.SslConnected? && !s.readNeedsWrite
    else if e == SSL_ERROR_WANT_WRITE then r == Block && s.state.SslConnected? && s.readNeedsWrite
    else if e == SSL_ERROR_ZERO_RETURN then r == Eos && s.state == SslClosed
    else r == Failure(e) && s.state == SslError && s.errorCode == e
  }

  lemma AfterReadOutcome(a: Adapter, answer: Answer, length: nat)
    requires a.Good() && a.state.SslConnected? && !a.Waiting() && length > 0 && !a.readNeedsWrite
    ensures var (s, r) := a.AfterRead(answer, length);
            ReadAnswered(s, r, answer, length, a.dtls && a.Next().count > 0)
  {
  }

  /** And of a write. */
  lemma WriteOutcome(a: Adapter, length: nat)
    requires a.Good() && a.state.SslConnected? && !a.Waiting() && length > 0
    ensures var (s, r) := a.Write(length);
            WriteAnswered(s, r, a.Next(), length)
  {
    var b := a.(writeNeedsRead := false);
    MoveDataKeeps(b);
    AfterWriteOutcome(b.MoveData(), a.Next(), length);
  }

  predicate WriteAnswered(s: Adapter, r: StreamResult, answer: Answer, length: nat)
    requires length > 0
  {
    var e := answer.sslError;
    if e == SSL_ERROR_NONE then r == Success(Moved(answer.count, length)) && s.state.SslConnected?
    else if e == SSL_ERROR_WANT_READ then r == Block && s.state.SslConnected? && s.writeNeedsRead
    else if e == SSL_ERROR_WANT_WRITE then r == Block && s.state.SslConnected? && !s.writeNeedsRead
    else r == Failure(e) && s.state == SslError && s.errorCode == e
  }

  lemma AfterWriteOutcome(a: Adapter, answer: Answer, length: nat)
    requires a.Good() && a.state.SslConnected? && !a.Waiting() && length > 0 && !a.writeNeedsRead
    ensures var (s, r) := a.AfterWrite(answer, length);
            WriteAnswered(s, r, answer, length)
  {
  }

  /** Negotiation can be started once: then it waits for the stream to open, or goes
      on, or has failed, and the error is returned. */
  lemma StartOutcome(a: Adapter, streamOpen: bool)
    requires a.Good()
    ensures var (s, err) := a.Begin(streamOpen);
            && (a.state != SslNone ==> s == a && err == -1)
            && (a.state == SslNone ==> s.log.HasStarted() && (err != 0 ==> s.state == SslError && s.errorCode == err))
            && (a.state == SslNone && !streamOpen ==>
                  s == a.(state := SslWait, log := Upon(a.log, Started)) && err == 0)
  {
  }

  /** Data calls that do not reach OpenSSL. */
  lemma IdleOutcome(a: Adapter, length: nat)
    requires a.Good() && (a.state.SslConnected? ==> a.Waiting() || length == 0)
    ensures a.state == SslNone ==>
              a.Read(length) == a.Write(length) == (a.(log := Upon(a.log, ClearText)), PassedThrough)
    ensures a.state != SslNone ==> a.Read(length).0 == a.Write(length).0 == a
    ensures a.state in {SslWait, SslConnecting} || (a.state == SslConnected && a.Waiting()) ==>
              a.Read(length).1 == a.Write(length).1 == Block
    ensures a.state == SslConnected && !a.Waiting() ==> a.Read(length).1 == a.Write(length).1 == Success(0)
    ensures a.state == SslClosed ==> a.Read(length).1 == Eos && a.Write(length).1 == Failure(a.errorCode)
    ensures a.state == SslError ==> a.Read(length).1 == a.Write(length).1 == Failure(a.errorCode)
  {
  }

  /** What an event of the wrapped stream lets the application know: all before the
      start; while connected what it says, and also readable when a read had to wait
      for the stream to become writable, and writable when a write had to wait for it
      to become readable; and otherwise only that it is closed. */
  function Told(a: Adapter, events: StreamEvents): StreamEvents {
    match a.state
    case SslNone => events
    case SslConnected =>
      StreamEvents(false, events.read || (events.write && a.readNeedsWrite),
                   events.write || (events.read && a.writeNeedsRead), events.close)
    case _ => if events.close then CLOSE_ONLY else NO_EVENTS
  }

  lemma EventOutcome(a: Adapter, events: StreamEvents, err: int)
    requires a.Good() && (events.open ==> a.state.SslNone?)
    requires a.state.SslConnecting? ==> !events.read && !events.write
    ensures a.OnEvent(events, err) ==
              if events.close then a.Cleanup().Log(Signaled(Told(a, events), err)).RunHandlers()
              else if Told(a, events).Any() then a.Log(Signaled(Told(a, events), 0)).RunHandlers()
              else a
  {
    ToldIsSignaled(a, events, err);
  }

  lemma ToldIsSignaled(a: Adapter, events: StreamEvents, err: int)
    requires a.Good() && (events.open ==> a.state.SslNone?)
    requires a.state.SslConnecting? ==> !events.read && !events.write
    ensures a.OnEvent(events, err) == a.OnClosing(events, err, Told(a, events).(close := false))
  {
  }

  /** Negotiation that fails ends the connection: the application learns of it by a
      close with its error. */
  lemma NegotiatingEventOutcome(a: Adapter, events: StreamEvents, err: int)
    requires a.Good() && a.state.SslConnecting? && (events.read || events.write) && !events.open
    ensures var (s, failed), r := a.ContinueSSL(), a.OnEvent(events, err);
            && (failed != 0 ==> r == s.Fail(failed).Log(Signaled(CLOSE_ONLY, failed)).RunHandlers())
            && (failed == 0 && events.close ==> r == s.Cleanup().Log(Signaled(CLOSE_ONLY, err)).RunHandlers())
            && (failed == 0 && !events.close ==> r == s)
  {
    var (s, failed) := a.ContinueSSL();
    var r := a.OnEvent(events, err);
    assert r == a.OnReady(events, err, NO_EVENTS) == a.OnNegotiable(events, err, NO_EVENTS);
    if failed != 0 {
      FailedIsSignaled(s, failed);
    } else {
      assert r == s.OnClosing(events, err, NO_EVENTS);
      OnlyCloseIsSignaled(s, events, err);
    }
  }

  lemma OnlyCloseIsSignaled(s: Adapter, events: StreamEvents, err: int)
    requires s.Good()
    ensures s.OnClosing(events, err, NO_EVENTS) ==
              if events.close then s.Cleanup().Log(Signaled(CLOSE_ONLY, err)).RunHandlers() else s
  {
    assert NO_EVENTS.(close := true) == CLOSE_ONLY;
  }

  lemma FailedIsSignaled(s: Adapter, failed: int)
    requires (s.Good() || s.GoodToBegin()) && s.log.HasStarted()
    ensures s.FailAndClose(failed) == s.Fail(failed).Log(Signaled(CLOSE_ONLY, failed)).RunHandlers()
  {
  }

  /** Likewise when the wrapped stream opens and negotiation cannot begin. */
  lemma OpeningEventOutcome(a: Adapter, events: StreamEvents, err: int)
    requires a.Good() && a.state.SslWait? && events.open
    ensures var (s, failed), r := a.(state := SslConnecting).BeginSSL(), a.OnEvent(events, err);
            && (failed != 0 ==> r == s.Fail(failed).Log(Signaled(CLOSE_ONLY, failed)).RunHandlers())
            && (failed == 0 ==> r == s.OnReady(events, err, NO_EVENTS))
  {
    var (s, failed) := a.(state := SslConnecting).BeginSSL();
    assert a.OnEvent(events, err) == a.OnOpen(events, err) == s.AfterSetup(failed, events, err);
    if failed != 0 {
      FailedIsSignaled(s, failed);
    }
  }

  /** The setup is three steps, each of which can fail; then negotiation starts. */
  lemma SetupOutcome(a: Adapter)
    requires a.GoodToBegin()
    ensures var r := a.BeginSSL();
            && (a.Next().count == 0 ==> r == (a.Rest(), -1))
            && (a.Next().count in {1, 2} ==> r == (a.Rest().(context := true), -1))
            && (a.Next().count >= 3 ==> r == a.Rest().(ssl := true, context := true).ContinueSSL())
  {
  }

  /** When the timer fires it is spent, and negotiation goes on. */
  lemma TimerOutcome(a: Adapter)
    requires a.Good() && a.timer
    ensures a.OnTimer() == a.(timer := false).Rest().ContinueSSL().0
  {
  }

  /** What follows from each answer of OpenSSL to a handshake: open, unless the peer is
      still to be verified; a timer or none; or an error. */
  lemma NegotiationOutcome(a: Adapter, answer: Answer)
    requires a.Good() && a.state.SslConnecting? && !a.timer
    ensures var (s, err), e := a.AfterNegotiation(answer), answer.sslError;
            if e == SSL_ERROR_NONE then
              && err == 0
              && (a.Waiting() ==> s == a.(state := SslConnected))
              && (!a.Waiting() ==> a.ComeUp() == a.(state := SslConnected, log := Upon(a.log, Signaled(ALL_OPEN, 0)))
                                   && s == a.ComeUp().RunHandlers())
            else if e == SSL_ERROR_WANT_READ then s == a.(timer := answer.yes) && err == 0
            else if e == SSL_ERROR_WANT_WRITE then s == a && err == 0
            else s == a.Log(HandshakeError).RunHandlers() && err == e
  {
  }

  /** With client authentication the application learns that the connection is
      open only once the peer is authenticated. */
  lemma OpenMeansAuthenticated(script: seq<Answer>, dtls: bool, calls: seq<Call>)
    ensures var log := Fresh(true, dtls, script).MakeAll(calls).log;
            log.Opens() > 0 ==> log.Authenticated()
  {
    assert Fresh(true, dtls, script).MakeAll(calls).Good();
  }

  /** What `GetState` says is what reads and writes do: open exactly when they
      reach OpenSSL, and blocking without effect while opening. */
  lemma StateTellsWhatDataDoes(a: Adapter, length: nat)
    requires a.Good() && length > 0
    ensures a.GetState().Open? <==> a.Write(length).0.log.Moves() > a.log.Moves()
    ensures a.GetState().Open? <==> a.Read(length).0.log.Moves() > a.log.Moves()
    ensures a.GetState().Opening? <==> a.Write(length) == (a, Block)
    ensures a.GetState().Opening? <==> a.Read(length) == (a, Block)
  {
  }

  /** A handshake in one step, in which the peer presents `certificate`. */
  function OneStepHandshake(certificate: Certificate): seq<Answer> {
    [SILENCE.(count := 3), SILENCE.(presented := Some([certificate]), sslError := SSL_ERROR_NONE)]
  }

  lemma OneStepNegotiates(certificate: Certificate, begun: Adapter)
    requires begun.Good() && begun.state.SslConnecting? && !begun.clientAuth && !begun.HasDigest()
    requires begun.script == OneStepHandshake(certificate)[1..] && begun.log.Opens() == 0
    ensures var connected := begun.ContinueSSL().0;
            && connected.state.SslConnected? && connected.chain == Some([certificate])
            && connected.digestAlgorithm == begun.digestAlgorithm && connected.verified == begun.verified
            && connected.log.Opens() == 1 && begun.ContinueSSL().1 == 0
  {
    assert begun.Negotiate().script == [];
    var connected := begun.Negotiate().ComeUp();
    assert begun.ContinueSSL() == begun.Negotiate().AfterNegotiation(begun.Next()) == (connected.RunHandlers(), 0)
        == (connected, 0);
  }

  lemma OneStepConnects(certificate: Certificate)
    ensures var connected := Fresh(false, true, OneStepHandshake(certificate)).Make(StartSSL(true));
            connected.state.SslConnected? && connected.chain == Some([certificate])
            && connected.digestAlgorithm == "" && !connected.verified && connected.log.Opens() == 1
  {
    var none := Fresh(false, true, OneStepHandshake(certificate));
    var initial := none.AwaitOpen().(state := SslConnecting);
    var begun := initial.Rest().(context := true, ssl := true);
    OneStepNegotiates(certificate, begun);
    assert initial.BeginSSL() == begun.ContinueSSL();
    assert none.Make(StartSSL(true)) == none.Begin(true).0 == none.AwaitOpen().Connect().0;
  }

  /** Without client authentication, a peer that presents a certificate in the
      handshake and a digest of it that arrives afterwards: two `SE_OPEN`. */
  lemma LateDigestOpensTwice(certificate: Certificate, value: seq<byte>)
    requires |value| == 20 && certificate.digests == map["sha-1" := value]
    ensures Fresh(false, true, OneStepHandshake(certificate))
              .Make(StartSSL(true)).Make(SetPeerCertificateDigest("sha-1", value)).log.Opens() == 2
  {
    OneStepConnects(certificate);
  }
}
