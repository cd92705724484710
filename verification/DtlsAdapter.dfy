/** The object of rtc_base/openssl_stream_adapter.cc, whose methods do what the
    functions of `DtlsSpec` say. */
module DtlsAdapter {

  import opened Basics
  import opened DtlsSpec

  class OpenSSLStreamAdapter {
    const clientAuth: bool
    const dtls: bool
    var state: SslState
    var errorCode: int
    var readNeedsWrite: bool
    var writeNeedsRead: bool
    /** Whether the SSL object, the SSL context and the DTLS timer exist. */
    var ssl: bool
    var context: bool
    var timer: bool
    var chain: Option<Chain>
    var verified: bool
    var digestAlgorithm: string
    var digestValue: seq<byte>
    var posted: seq<StreamEvents>
    /** What the surroundings are going to answer. */
    var script: seq<Answer>
    ghost var log: Log

    ghost function View(): Adapter
      reads this
    {
      Adapter(clientAuth, dtls, state, errorCode, readNeedsWrite, writeNeedsRead, ssl, context, timer,
              chain, verified, digestAlgorithm, digestValue, posted, script, log)
    }

    ghost predicate Valid()
      reads this
    {
      View().Good()
    }

    constructor (clientAuth: bool, dtls: bool, script: seq<Answer>)
      ensures View() == Fresh(clientAuth, dtls, script)
    {
      this.clientAuth, this.dtls, this.script := clientAuth, dtls, script;
      state, errorCode, readNeedsWrite, writeNeedsRead := SslNone, 0, false, false;
      ssl, context, timer := false, false, false;
      chain, verified, digestAlgorithm, digestValue := None, false, "", [];
      posted, log := [], Start;
    }

    // ---------- The surroundings ----------

    method Ask() returns (a: Answer)
      modifies `script
      ensures a == old(View()).Next() && View() == old(View()).Rest()
    {
      if script == [] {
        return SILENCE;
      }
      a, script := script[0], script[1..];
    }

    ghost method Note(happening: Happening)
      modifies `log
      ensures View() == old(View()).Log(happening)
    {
      log := Upon(log, happening);
    }

    // ---------- The peer's certificate ----------

    method VerifyPeerCertificate() returns (ok: bool)
      modifies `verified
      ensures ok <==> digestAlgorithm != "" && digestValue != [] && chain.Some?
                      && Matches(chain.value, digestAlgorithm, digestValue)
      ensures verified == (old(verified) || ok)
    {
      if digestAlgorithm == "" || digestValue == [] || chain.None? || |chain.value| == 0 {
        return false;
      }
      if digestAlgorithm !in chain.value[0].digests {
        return false;
      }
      if chain.value[0].digests[digestAlgorithm] != digestValue {
        return false;
      }
      verified := true;
      return true;
    }

    /** OpenSSL's call of the verify callback, if there is one. */
    method VerifyCallback(presented: Option<Chain>) returns (ok: bool)
      requires Valid() && ssl && (state.SslConnected? ==> !View().Waiting())
      modifies `chain, `verified, `log
      ensures View() == old(View()).Present(presented)
      ensures ok <==> presented.None? || digestAlgorithm == "" || Matches(presented.value, digestAlgorithm, digestValue)
    {
      if presented.None? {
        return true;
      }
      chain := presented;
      Note(Presented(presented.value));
      if digestAlgorithm == "" {
        return true;
      }
      ok := VerifyPeerCertificate();
    }

    method SetPeerCertificateDigest(algorithm: string, value: seq<byte>) returns (ok: bool, error: DigestError)
      requires Valid() && !verified && !View().HasDigest()
      modifies this
      ensures (View(), error) == old(View()).SetDigest(algorithm, value)
      ensures ok <==> error == NoError
      ensures error == UnknownAlgorithm <==> DigestSize(algorithm).None?
      ensures error == InvalidLength <==> DigestSize(algorithm).Some? && DigestSize(algorithm).value != |value|
      ensures error == VerificationFailed <==>
                && DigestSize(algorithm) == Some(|value|)
                && old(chain).Some? && !Matches(old(chain).value, algorithm, value)
      ensures error == VerificationFailed ==> state == SslError && errorCode == -1 && posted == old(posted)
    {
      var expected := DigestSize(algorithm);
      if expected.None? {
        return false, UnknownAlgorithm;
      }
      if expected.value != |value| {
        return false, InvalidLength;
      }
      ok, error := TakeDigest(algorithm, value);
    }

    method Store(algorithm: string, value: seq<byte>)
      modifies `digestAlgorithm, `digestValue, `log
      ensures View() == old(View()).Store(algorithm, value)
    {
      digestValue, digestAlgorithm := value, algorithm;
      Note(DigestSet(algorithm, value, state.SslConnected? && chain.Some? && Matches(chain.value, algorithm, value)));
    }

    method TakeDigest(algorithm: string, value: seq<byte>) returns (ok: bool, error: DigestError)
      requires Valid() && !verified && !View().HasDigest() && algorithm != "" && value != []
      modifies this
      ensures (View(), error) == old(View()).TakeDigest(algorithm, value)
      ensures ok <==> error == NoError
    {
      Store(algorithm, value);
      if chain.None? {
        return true, NoError;
      }
      var matches := VerifyPeerCertificate();
      if !matches {
        Error(-1);
        return false, VerificationFailed;
      }
      if state.SslConnected? {
        posted := posted + [ALL_OPEN];
        Note(Posted(ALL_OPEN));
      }
      return true, NoError;
    }

    // ---------- Ending ----------

    method Cleanup()
      modifies this
      ensures View() == old(View()).(
                state := if old(state).SslError? then SslError else SslClosed,
                errorCode := if old(state).SslError? then old(errorCode) else 0,
                ssl := false, context := false, chain := None, timer := false)
    {
      if !state.SslError? {
        state, errorCode := SslClosed, 0;
      }
      ssl, context := false, false;
      chain, timer := None, false;
    }

    /** `Error` without a signal. */
    method Error(err: int)
      modifies this
      ensures View() == old(View()).(state := SslError, errorCode := err, ssl := false, context := false,
                                     chain := None, timer := false)
    {
      state, errorCode := SslError, err;
      Cleanup();
    }

    method Close()
      requires Valid()
      modifies this
      ensures View() == old(View()).Cleanup()
    {
      Cleanup();
    }

    // ---------- Data ----------

    method GetState() returns (r: StreamState)
      requires Valid()
      ensures r == View().GetState()
    {
      match state {
        case SslWait => r := Opening;
        case SslConnecting => r := Opening;
        case SslConnected => r := if clientAuth && !verified then Opening else Open;
        case _ => r := Closed;
      }
    }

    /** `SSL_read` or `SSL_write`. */
    method MoveData() returns (a: Answer)
      requires Valid() && state.SslConnected? && !View().Waiting()
      modifies this
      ensures View() == old(View()).MoveData() && a == old(View()).Next()
    {
      a := Ask();
      NoteData();
      var ok := VerifyCallback(a.presented);
    }

    ghost method NoteData()
      requires Valid() && state.SslConnected? && !View().Waiting()
      modifies `log
      ensures View() == old(View()).LogData() && Valid()
    {
      Note(SslData);
    }

    method Write(length: nat) returns (r: StreamResult)
      requires Valid()
      modifies this
      ensures (View(), r) == old(View()).Write(length)
    {
      match state {
        case SslNone => Note(ClearText); return PassedThrough;
        case SslWait => return Block;
        case SslConnecting => return Block;
        case SslConnected => if clientAuth && !verified { return Block; }
        case _ => return Failure(errorCode);
      }
      if length == 0 {
        return Success(0);
      }
      r := SslWrite(length);
    }

    method SslWrite(length: nat) returns (r: StreamResult)
      requires Valid() && state.SslConnected? && !View().Waiting() && length > 0
      modifies this
      ensures (View(), r) == old(View()).SslWrite(length)
    {
      writeNeedsRead := false;
      var a := MoveData();
      r := AfterWrite(a, length);
    }

    method AfterWrite(a: Answer, length: nat) returns (r: StreamResult)
      requires Valid() && state.SslConnected? && !View().Waiting() && length > 0
      modifies this
      ensures (View(), r) == old(View()).AfterWrite(a, length)
    {
      if a.sslError == SSL_ERROR_NONE {
        return Success(Moved(a.count, length));
      } else if a.sslError == SSL_ERROR_WANT_READ {
        writeNeedsRead := true;
        return Block;
      } else if a.sslError == SSL_ERROR_WANT_WRITE {
        return Block;
      }
      Error(a.sslError);
      r := Failure(errorCode);
    }

    method Read(length: nat) returns (r: StreamResult)
      requires Valid()
      modifies this
      ensures (View(), r) == old(View()).Read(length)
    {
      match state {
        case SslNone => Note(ClearText); return PassedThrough;
        case SslWait => return Block;
        case SslConnecting => return Block;
        case SslConnected => if clientAuth && !verified { return Block; }
        case SslClosed => return Eos;
        case SslError => return Failure(errorCode);
      }
      if length == 0 {
        return Success(0);
      }
      r := SslRead(length);
    }

    method SslRead(length: nat) returns (r: StreamResult)
      requires Valid() && state.SslConnected? && !View().Waiting() && length > 0
      modifies this
      ensures (View(), r) == old(View()).SslRead(length)
    {
      readNeedsWrite := false;
      var a := MoveData();
      r := AfterRead(a, length);
    }

    method AfterRead(a: Answer, length: nat) returns (r: StreamResult)
      requires Valid() && state.SslConnected? && !View().Waiting() && length > 0
      modifies this
      ensures (View(), r) == old(View()).AfterRead(a, length)
    {
      if a.sslError == SSL_ERROR_NONE {
        if dtls {
          var pending := Ask();
          if pending.count > 0 {
            FlushInput(pending.count);
            return Failure(SSE_MSG_TRUNC);
          }
        }
        return Success(Moved(a.count, length));
      } else if a.sslError == SSL_ERROR_WANT_READ {
        return Block;
      } else if a.sslError == SSL_ERROR_WANT_WRITE {
        readNeedsWrite := true;
        return Block;
      } else if a.sslError == SSL_ERROR_ZERO_RETURN {
        Close();
        return Eos;
      }
      Error(a.sslError);
      r := Failure(errorCode);
    }

    method FlushInput(pending: nat)
      requires Valid() && state.SslConnected? && !View().Waiting()
      modifies this
      ensures View() == old(View()).FlushInput(pending)
    {
      var left := pending;
      while left > 0
        invariant Valid() && (left > 0 ==> state.SslConnected? && !View().Waiting())
        invariant View().FlushInput(left) == old(View()).FlushInput(pending)
      {
        left := FlushSome(left);
      }
    }

    /** One read of `FlushInput`; nothing is left to do when it fails. */
    method FlushSome(left: nat) returns (rest: nat)
      requires Valid() && state.SslConnected? && !View().Waiting() && left > 0
      modifies this
      ensures (View(), rest) == old(View()).FlushSome(left)
    {
      var toRead := if FLUSH_BUFFER < left then FLUSH_BUFFER else left;
      var a := MoveData();
      if a.sslError != SSL_ERROR_NONE {
        Error(a.sslError);
        return 0;
      }
      rest := left - Moved(a.count, toRead);
    }

    // ---------- Negotiation ----------

    method StartSSL(streamOpen: bool) returns (err: int)
      requires Valid()
      modifies this
      ensures (View(), err) == old(View()).Begin(streamOpen)
      decreases |script|, 6
    {
      if !state.SslNone? {
        return -1;
      }
      Note(Started);
      if !streamOpen {
        state := SslWait;
        return 0;
      }
      err := Connect();
    }

    /** `StartSSL` on an open stream. */
    method Connect() returns (err: int)
      requires state.SslNone? && View().(state := SslWait).Good()
      modifies this
      ensures (View(), err) == old(View()).(state := SslWait).Connect()
      decreases |script|, 5
    {
      state := SslConnecting;
      err := BeginSSL();
      if err != 0 {
        Error(err);
      }
    }

    method BeginSSL() returns (err: int)
      requires View().GoodToBegin() && !context && !ssl
      modifies this
      ensures (View(), err) == old(View()).BeginSSL()
      decreases |script|, 4
    {
      var setup := Ask();
      if setup.count == 0 {
        return -1;
      }
      context := true;
      if setup.count <= 2 {
        return -1;
      }
      ssl := true;
      err := ContinueSSL();
    }

    method ContinueSSL() returns (err: int)
      requires Valid() && state.SslConnecting?
      modifies this
      ensures (View(), err) == old(View()).ContinueSSL()
      decreases |script|, 3
    {
      var a := Negotiate();
      err := AfterNegotiation(a);
    }

    /** OpenSSL negotiates for as long as it can. */
    method Negotiate() returns (a: Answer)
      requires Valid() && state.SslConnecting?
      modifies this
      ensures View() == old(View()).Negotiate() && a == old(View()).Next()
    {
      timer := false;
      a := Ask();
      var ok := VerifyCallback(a.presented);
    }

    method AfterNegotiation(a: Answer) returns (err: int)
      requires Valid() && state.SslConnecting? && !timer
      modifies this
      ensures (View(), err) == old(View()).AfterNegotiation(a)
      decreases |script|, 2
    {
      if a.sslError == SSL_ERROR_NONE {
        state := SslConnected;
        if !(clientAuth && !verified) {
          SignalEvent(ALL_OPEN, 0);
        }
      } else if a.sslError == SSL_ERROR_WANT_READ {
        if a.yes {
          SetTimeout();
        }
      } else if a.sslError != SSL_ERROR_WANT_WRITE {
        SignalHandshakeError();
        return a.sslError;
      }
      return 0;
    }

    method SetTimeout()
      requires !timer
      modifies `timer
      ensures timer
    {
      timer := true;
    }

    method TimerFires()
      requires Valid() && timer
      modifies this
      ensures View() == old(View()).OnTimer()
      decreases |script|, 5
    {
      timer := false;
      var retransmitted := Ask();
      var dropped := ContinueSSL();
    }

    // ---------- Events and their handlers ----------

    /** Signals; the handlers make the calls they have in mind. */
    method SignalEvent(events: StreamEvents, err: int)
      requires View().Log(Signaled(events, err)).Good()
      modifies this
      ensures View() == old(View()).Log(Signaled(events, err)).RunHandlers()
      decreases |script|, 1
    {
      Note(Signaled(events, err));
      RunHandlers();
    }

    method SignalHandshakeError()
      requires Valid()
      modifies this
      ensures View() == old(View()).SignalHandshakeError()
      decreases |script|, 1
    {
      Note(HandshakeError);
      RunHandlers();
    }

    method RunHandlers()
      requires Valid()
      modifies this
      ensures View() == old(View()).RunHandlers()
      decreases |script|, 0
    {
      if script != [] {
        var a := Ask();
        MakeAll(a.calls);
      }
    }

    method MakeAll(calls: seq<Call>)
      requires Valid()
      modifies this
      ensures View() == old(View()).MakeAll(calls)
      ensures Valid() && log.Safe(clientAuth)
      decreases |script|, 10, |calls|
    {
      if calls != [] {
        Make(calls[0]);
        MakeAll(calls[1..]);
      }
    }

    method RunPosted()
      requires Valid() && posted != []
      modifies this
      ensures View() == old(View()).DeliverPosted()
      decreases |script|, 1
    {
      TakePosted();
      RunHandlers();
    }

    method TakePosted()
      requires Valid() && posted != []
      modifies this
      ensures View() == old(View()).TakePosted()
    {
      Note(Delivered(posted[0]));
      posted := posted[1..];
    }

    method IsPermitted(call: Call) returns (ok: bool)
      ensures ok <==> View().Permitted(call)
    {
      match call {
        case SetPeerCertificateDigest(_, _) => ok := !verified && (digestAlgorithm == "" || digestValue == []);
        case StreamEvent(events, _) => ok := !events.open || state.SslNone? || state.SslWait?;
        case TimerFires => ok := timer;
        case RunPosted => ok := posted != [];
        case _ => ok := true;
      }
    }

    method Make(call: Call)
      requires Valid()
      modifies this
      ensures View() == old(View()).Make(call)
      decreases |script|, 9
    {
      var permitted := IsPermitted(call);
      if permitted {
        if call.StreamEvent? || call.TimerFires? || call.RunPosted? {
          React(call);
        } else {
          Serve(call);
        }
      }
    }

    /** A call of the application. */
    method Serve(call: Call)
      requires Valid() && View().Permitted(call) && !call.StreamEvent? && !call.TimerFires? && !call.RunPosted?
      modifies this
      ensures View() == old(View()).Serve(call)
      decreases |script|, 8
    {
      match call {
        case StartSSL(streamOpen) => var err := StartSSL(streamOpen);
        case Read(length) => var r := Read(length);
        case Write(length) => var r := Write(length);
        case Close => Close();
        case SetPeerCertificateDigest(algorithm, value) =>
          var ok, error := SetPeerCertificateDigest(algorithm, value);
      }
    }

    method React(call: Call)
      requires Valid() && View().Permitted(call) && (call.StreamEvent? || call.TimerFires? || call.RunPosted?)
      modifies this
      ensures View() == old(View()).React(call)
      decreases |script|, 8
    {
      match call {
        case StreamEvent(events, err) => OnEvent(events, err);
        case TimerFires => TimerFires();
        case RunPosted => RunPosted();
      }
    }

    method OnEvent(events: StreamEvents, err: int)
      requires Valid() && (events.open ==> state.SslNone? || state.SslWait?)
      modifies this
      ensures View() == old(View()).OnEvent(events, err)
      decreases |script|, 7
    {
      var signal := NO_EVENTS;
      if events.open {
        if state.SslWait? {
          OnOpen(events, err);
          return;
        }
        signal := signal.(open := true);
      }
      OnReady(events, err, signal);
    }

    /** The wrapped stream has opened, and negotiation can begin. */
    method OnOpen(events: StreamEvents, err: int)
      requires Valid() && state.SslWait?
      modifies this
      ensures View() == old(View()).OnOpen(events, err)
      decreases |script|, 6
    {
      state := SslConnecting;
      var failed := BeginSSL();
      AfterSetup(failed, events, err);
    }

    method AfterSetup(failed: int, events: StreamEvents, err: int)
      requires (View().Good() || (failed != 0 && View().GoodToBegin())) && log.HasStarted()
      modifies this
      ensures View() == old(View()).AfterSetup(failed, events, err)
      decreases |script|, 5
    {
      if failed != 0 {
        FailAndClose(failed);
      } else {
        OnReady(events, err, NO_EVENTS);
      }
    }

    /** `Error` with a signal. */
    method FailAndClose(err: int)
      requires View().Good() || View().GoodToBegin()
      requires log.HasStarted()
      modifies this
      ensures View() == old(View()).FailAndClose(err)
      decreases |script|, 2
    {
      Error(err);
      SignalEvent(CLOSE_ONLY, err);
    }

    /** The part of `OnEvent` about readable and writable, and what follows it. */
    method OnReady(events: StreamEvents, err: int, opening: StreamEvents)
      requires Valid() && (opening.open ==> !log.HasStarted()) && !opening.read && !opening.write
      modifies this
      ensures View() == old(View()).OnReady(events, err, opening)
      decreases |script|, 4
    {
      var signal := opening;
      if events.read || events.write {
        if state.SslNone? {
          signal := signal.(read := events.read, write := events.write);
        } else if state.SslConnecting? {
          var failed := ContinueSSL();
          if failed != 0 {
            FailAndClose(failed);
            return;
          }
        } else if state.SslConnected? {
          if (events.read && writeNeedsRead) || events.write {
            signal := signal.(write := true);
          }
          if (events.write && readNeedsWrite) || events.read {
            signal := signal.(read := true);
          }
        }
      }
      OnClosing(events, err, signal);
    }

    method OnClosing(events: StreamEvents, err: int, pending: StreamEvents)
      requires Valid() && (pending.open ==> !log.HasStarted())
      modifies this
      ensures View() == old(View()).OnClosing(events, err, pending)
      decreases |script|, 2
    {
      var signal, signalError := pending, 0;
      if events.close {
        Close();
        signal, signalError := signal.(close := true), err;
      }
      if signal.Any() {
        SignalEvent(signal, signalError);
      }
    }
  }

  /** The whole life of an adapter, whatever is called on it and whatever OpenSSL
      and the handlers do: at no point does clear text pass after the start, nor
      with client authentication data without an authenticated peer, nor data
      after a digest has rejected the peer, and `SE_OPEN` comes once and only then,
      unless a late digest repeats it. */
  method Live(clientAuth: bool, dtls: bool, script: seq<Answer>, calls: seq<Call>)
    returns (adapter: OpenSSLStreamAdapter)
    ensures fresh(adapter) && adapter.Valid()
    ensures forall point :: Passed(adapter.log, point) && point.Upon? ==>
              && (point.last.ClearText? ==> !point.before.HasStarted())
              && (point.last.SslData? && clientAuth ==> point.before.Authenticated())
              && (point.last.SslData? ==> !point.before.HasRejected())
    ensures adapter.log.Opens() <= 1 <==> clientAuth || !adapter.log.HasLateDigest()
    ensures clientAuth && adapter.log.Opens() > 0 ==> adapter.log.Authenticated()
    ensures adapter.log.Outstanding() == |adapter.posted|
  {
    adapter := new OpenSSLStreamAdapter(clientAuth, dtls, script);
    adapter.MakeAll(calls);
    forall point: Log | Passed(adapter.log, point) && point.Upon?
      ensures point.last.ClearText? ==> !point.before.HasStarted()
      ensures point.last.SslData? && clientAuth ==> point.before.Authenticated()
      ensures point.last.SslData? ==> !point.before.HasRejected()
    {
      EveryRunIsSafe(clientAuth, dtls, script, calls, point);
    }
    OpensOnceIff(clientAuth, dtls, script, calls);
    PostedAreDelivered(clientAuth, dtls, script, calls);
    if clientAuth {
      OpenMeansAuthenticated(script, dtls, calls);
    }
  }
}
