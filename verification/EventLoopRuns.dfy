/** What the dispatcher registry and the kernel's picture of it keep, whatever
    signal handlers do. */
module EventLoopRuns {
  import opened Basics
  import opened EventLoopSpec

  ghost predicate Inverse(byKey: map<Key, Addr>, byAddr: map<Addr, Key>) {
    && (forall k :: k in byKey ==> byKey[k] in byAddr && byAddr[byKey[k]] == k)
    && (forall a :: a in byAddr ==> byAddr[a] in byKey && byKey[byAddr[a]] == a)
  }

  ghost predicate KeysBelow(byKey: map<Key, Addr>, next: Key) {
    forall k :: k in byKey ==> k < next
  }

  /** Sockets have a descriptor exactly while registered, and no two the same. */
  ghost predicate OpenIsRegistered(sockets: map<Addr, Socket>, byAddr: map<Addr, Key>, owner: map<Fd, Addr>) {
    && (forall a :: a in byAddr ==> a in sockets)
    && (forall a :: a in sockets ==> (sockets[a].fd != INVALID_SOCKET <==> a in byAddr))
    && (forall a :: a in sockets && sockets[a].fd != INVALID_SOCKET ==>
          sockets[a].fd in owner && owner[sockets[a].fd] == a)
    && INVALID_SOCKET !in owner
  }

  /** A socket is registered anew within a batch only after it was closed in it. */
  ghost predicate ReopenedInBatch(sockets: map<Addr, Socket>, reopened: set<Addr>) {
    && (forall a :: a in reopened ==> a in sockets && sockets[a].saved == Some(0))
    && (forall a :: a in sockets && sockets[a].fd == INVALID_SOCKET ==> sockets[a].saved in {None, Some(0)})
  }

  ghost predicate Shape(w: World) {
    && Inverse(w.byKey, w.byAddr) && KeysBelow(w.byKey, w.next)
    && w.told.Keys == w.byAddr.Keys
    && OpenIsRegistered(w.sockets, w.byAddr, w.owner)
    && ReopenedInBatch(w.sockets, w.reopened)
  }

  /** The kernel knows the interest of the socket as it is outside a batch, and
      as it was when the batch began inside one. */
  ghost predicate Agrees(w: World, a: Addr)
    requires a in w.sockets && a in w.told
  {
    ToldRight(w.sockets[a], w.told[a], a in w.reopened)
  }

  ghost predicate ToldRight(s: Socket, told: Events, reopened: bool) {
    if s.saved.None? then told == GetEpollEvents(s.enabled)
    else reopened || told == GetEpollEvents(s.saved.value)
  }

  /** `but` holds the sockets about which nothing is claimed. */
  ghost predicate AllAgree(w: World, but: iset<Addr>)
    requires Shape(w)
  {
    forall a :: a in w.byAddr && a !in but ==> Agrees(w, a)
  }

  /** A key given out before `wasNext` and present now has been present all
      along, for the same address. */
  ghost predicate NoKeyReturns(was: World, w: World) {
    && was.next <= w.next
    && forall k :: k in w.byKey && k < was.next ==> k in was.byKey && was.byKey[k] == w.byKey[k]
  }

  ghost predicate Kept(was: World, w: World, but: iset<Addr>) {
    Shape(w) && AllAgree(w, but) && NoKeyReturns(was, w)
  }

  lemma NoKeyReturnsTrans(w: World, v: World, u: World)
    requires NoKeyReturns(w, v) && NoKeyReturns(v, u)
    ensures NoKeyReturns(w, u)
  {
  }

  // ---------- Each operation ----------

  lemma RegisterKeeps(w: World, a: Addr)
    requires Inverse(w.byKey, w.byAddr) && KeysBelow(w.byKey, w.next) && w.told.Keys == w.byAddr.Keys
    requires a in w.sockets && a !in w.byAddr
    ensures var r := Register(w, a);
            && Inverse(r.byKey, r.byAddr) && KeysBelow(r.byKey, r.next) && r.told.Keys == r.byAddr.Keys
            && NoKeyReturns(w, r) && r.byAddr == w.byAddr[a := w.next] && r.next == w.next + 1
  {
  }

  lemma UnregisterKeeps(w: World, a: Addr)
    requires Inverse(w.byKey, w.byAddr) && KeysBelow(w.byKey, w.next) && w.told.Keys == w.byAddr.Keys
    requires a in w.byAddr
    ensures var r := Unregister(w, a);
            && Inverse(r.byKey, r.byAddr) && KeysBelow(r.byKey, r.next) && r.told.Keys == r.byAddr.Keys
            && NoKeyReturns(w, r)
  {
  }

  /** Changing a socket but for its descriptor changes nothing about who is open. */
  lemma SameFdKeepsOpen(w: World, a: Addr, s: Socket)
    requires OpenIsRegistered(w.sockets, w.byAddr, w.owner) && a in w.sockets && s.fd == w.sockets[a].fd
    ensures OpenIsRegistered(w.sockets[a := s], w.byAddr, w.owner)
  {
  }

  lemma SetEventsShape(w: World, a: Addr, ff: Events)
    requires Shape(w) && a in w.sockets
    ensures Shape(SetEvents(w, a, ff)) && NoKeyReturns(w, SetEvents(w, a, ff))
  {
    SameFdKeepsOpen(w, a, w.sockets[a].(enabled := ff));
    assert ReopenedInBatch(SetEvents(w, a, ff).sockets, w.reopened);
  }

  lemma SetEventsKeeps(w: World, a: Addr, ff: Events, but: iset<Addr>)
    requires Shape(w) && AllAgree(w, but) && a in w.sockets
    ensures Kept(w, SetEvents(w, a, ff), but)
  {
    var r := SetEvents(w, a, ff);
    SetEventsShape(w, a, ff);
    forall b | b in r.byAddr && b !in but ensures Agrees(r, b) {
      SetEventsAgrees(w, a, ff, b);
    }
  }

  lemma SetEventsAgrees(w: World, a: Addr, ff: Events, b: Addr)
    requires a in w.sockets && b in w.sockets && b in w.told && b in w.byAddr && Agrees(w, b)
    ensures Agrees(SetEvents(w, a, ff), b)
  {
  }

  lemma CloseKeeps(w: World, a: Addr, but: iset<Addr>)
    requires Shape(w) && AllAgree(w, but) && a in w.sockets
    ensures var r := CloseSocket(w, a);
            && Kept(w, r, but) && a in r.sockets && a !in r.byAddr && r.sockets[a].fd == INVALID_SOCKET
            && r.sockets[a].saved.Some? == w.sockets[a].saved.Some?
            && r.owner == w.owner - {w.sockets[a].fd} && r.byAddr == w.byAddr - {a}
            && (w.sockets[a].fd != INVALID_SOCKET ==> a !in r.reopened)
  {
    if w.sockets[a].fd != INVALID_SOCKET {
      UnregisterKeeps(w, a);
      var r := CloseSocket(w, a);
      assert OpenIsRegistered(r.sockets, r.byAddr, r.owner);
      assert ReopenedInBatch(r.sockets, r.reopened);
      forall b | b in r.byAddr && b !in but ensures Agrees(r, b) {
        assert Agrees(w, b);
      }
    }
  }

  /** Giving a closed socket a new descriptor, registering it when there is one. */
  lemma OpenKeeps(w: World, a: Addr, s: Socket, but: iset<Addr>)
    requires Shape(w) && AllAgree(w, but) && a !in w.byAddr
    requires a in w.sockets ==> s.saved == w.sockets[a].saved
    requires a !in w.sockets ==> s.saved.None?
    requires s.fd == INVALID_SOCKET || OsFd(w.owner, s.fd) == s.fd
    ensures Kept(w, Opened(w, a, s), but)
  {
    var r := Opened(w, a, s);
    OpenShape(w, a, s);
    forall b | b in r.byAddr && b !in but ensures Agrees(r, b) {
      assert b != a ==> Agrees(w, b);
    }
  }

  lemma OpenShape(w: World, a: Addr, s: Socket)
    requires Shape(w) && a !in w.byAddr
    requires a in w.sockets ==> s.saved == w.sockets[a].saved
    requires a !in w.sockets ==> s.saved.None?
    requires s.fd == INVALID_SOCKET || OsFd(w.owner, s.fd) == s.fd
    ensures Shape(Opened(w, a, s)) && NoKeyReturns(w, Opened(w, a, s))
  {
    assert a in w.sockets ==> w.sockets[a].fd == INVALID_SOCKET;
    OpenedOwner(w, a, s);
    OpenedReopened(w, a, s);
    RegisterKeeps(w.(sockets := w.sockets[a := s]), a);
  }

  lemma OpenedOwner(w: World, a: Addr, s: Socket)
    requires OpenIsRegistered(w.sockets, w.byAddr, w.owner) && a !in w.byAddr
    requires s.fd == INVALID_SOCKET || OsFd(w.owner, s.fd) == s.fd
    ensures var r := Opened(w, a, s);
            OpenIsRegistered(r.sockets, r.byAddr, r.owner)
  {
    if s.fd != INVALID_SOCKET {
      GivenOwner(w.sockets, w.byAddr, w.owner, a, s, w.next);
    }
  }

  lemma GivenOwner(sockets: map<Addr, Socket>, byAddr: map<Addr, Key>, owner: map<Fd, Addr>, a: Addr, s: Socket,
                   key: Key)
    requires OpenIsRegistered(sockets, byAddr, owner) && a !in byAddr
    requires s.fd != INVALID_SOCKET && s.fd !in owner
    ensures OpenIsRegistered(sockets[a := s], byAddr[a := key], owner[s.fd := a])
  {
  }

  lemma OpenedReopened(w: World, a: Addr, s: Socket)
    requires ReopenedInBatch(w.sockets, w.reopened)
    requires if a in w.sockets then s.saved == w.sockets[a].saved && w.sockets[a].fd == INVALID_SOCKET
             else s.saved.None?
    ensures var r := Opened(w, a, s);
            ReopenedInBatch(r.sockets, r.reopened)
  {
  }

  lemma CreateKeeps(w: World, a: Addr, fd: Fd, udp: bool, but: iset<Addr>)
    requires Shape(w) && AllAgree(w, but) && a in w.sockets
    ensures Kept(w, CreateSocket(w, a, fd, udp), but)
  {
    CloseKeeps(w, a, but);
    var v := CloseSocket(w, a);
    var s := v.sockets[a].(fd := OsFd(v.owner, fd));
    OpenKeeps(v, a, if udp then s.(enabled := DE_READ | DE_WRITE) else s, but);
    NoKeyReturnsTrans(w, v, CreateSocket(w, a, fd, udp));
  }

  lemma DeleteKeeps(w: World, a: Addr, but: iset<Addr>)
    requires Shape(w) && AllAgree(w, but) && a in w.sockets && w.sockets[a].saved.None?
    ensures Kept(w, Handle(w, Delete(a)), but)
  {
    CloseKeeps(w, a, but);
    var v := CloseSocket(w, a);
    var r := v.(sockets := v.sockets - {a});
    assert OpenIsRegistered(r.sockets, r.byAddr, r.owner);
    assert ReopenedInBatch(r.sockets, r.reopened);
    forall b | b in r.byAddr && b !in but ensures Agrees(r, b) {
      assert Agrees(v, b);
    }
  }

  lemma OpKeeps(w: World, op: HandlerOp, but: iset<Addr>)
    requires Shape(w) && AllAgree(w, but)
    ensures Kept(w, Handle(w, op), but)
  {
    if Sensible(w.sockets, w.owner, op) {
      match op
      case New(a) => OpenKeeps(w, a, Socket(INVALID_SOCKET, 0, None), but);
      case Wrap(a, fd) => OpenKeeps(w, a, Socket(fd, DE_READ | DE_WRITE, None), but);
      case Enable(a, ff) => SetEventsKeeps(w, a, w.sockets[a].enabled | ff, but);
      case Close(a) => CloseKeeps(w, a, but);
      case Create(a, fd, udp) => CreateKeeps(w, a, fd, udp, but);
      case Delete(a) => DeleteKeeps(w, a, but);
    }
  }

  /** What becomes of the socket that an operation is about. */
  ghost predicate OpDone(w: World, r: World, op: HandlerOp) {
    match op
    case New(a) => a in r.sockets && r.sockets[a] == Socket(INVALID_SOCKET, 0, None) && a !in r.byAddr
    case Wrap(a, fd) => IsOpen(r, a, fd) && WantsJust(r, a, DE_READ, DE_WRITE)
    case Enable(a, ff) =>
      && a in w.sockets && a in r.sockets && r.sockets[a].fd == w.sockets[a].fd && r.byAddr == w.byAddr
      && HasEither(r.sockets[a].enabled, w.sockets[a].enabled, ff)
    case Close(a) => IsClosed(r, a)
    case Create(a, fd, udp) =>
      && a in w.sockets
      && (IsOpen(r, a, fd) || IsClosed(r, a))
      && (a in r.byAddr <== 0 <= fd && fd !in w.owner)
      && (a in r.byAddr && udp ==> a in r.sockets && WantsJust(r, a, DE_READ, DE_WRITE))
    case Delete(a) => a !in r.sockets && a !in r.byAddr
  }

  ghost predicate IsOpen(w: World, a: Addr, fd: Fd) {
    a in w.sockets && a in w.byAddr && w.sockets[a].fd == fd != INVALID_SOCKET && fd in w.owner && w.owner[fd] == a
  }

  ghost predicate IsClosed(w: World, a: Addr) {
    a in w.sockets && a !in w.byAddr && w.sockets[a].fd == INVALID_SOCKET
  }

  ghost predicate WantsJust(w: World, a: Addr, one: Events, other: Events)
    requires a in w.sockets
  {
    HasEither(w.sockets[a].enabled, one, other)
  }

  ghost predicate HasEither(all: Events, one: Events, other: Events) {
    forall bit :: Has(all, bit) <==> Has(one, bit) || Has(other, bit)
  }

  lemma OrHasEither(one: Events, other: Events)
    ensures HasEither(one | other, one, other)
  {
    forall bit: Events ensures Has(one | other, bit) <==> Has(one, bit) || Has(other, bit) {
      OrHas(one, other, one | other, bit, one & bit, other & bit);
    }
  }

  lemma OrHas(one: Events, other: Events, all: Events, bit: Events, x: Events, y: Events)
    requires all == one | other && x == one & bit && y == other & bit
    ensures all & bit != 0 <==> x != 0 || y != 0
  {
    assert all & bit == x | y;
  }

  ghost predicate OthersSame(w: World, r: World, a: Addr) {
    forall b :: b in w.sockets && b != a ==> b in r.sockets && r.sockets[b] == w.sockets[b]
  }

  lemma WrapDoes(w: World, a: Addr, fd: Fd)
    requires Shape(w) && a !in w.sockets && OsFd(w.owner, fd) != INVALID_SOCKET
    ensures IsOpen(Handle(w, Wrap(a, fd)), a, fd) && WantsJust(Handle(w, Wrap(a, fd)), a, DE_READ, DE_WRITE)
    ensures OthersSame(w, Handle(w, Wrap(a, fd)), a)
  {
    var r := Handle(w, Wrap(a, fd));
    assert r == Opened(w, a, Socket(fd, DE_READ | DE_WRITE, None));
    OpenedSockets(w, a, Socket(fd, DE_READ | DE_WRITE, None));
    WantsTwo(r, a);
  }

  lemma WantsTwo(w: World, a: Addr)
    requires a in w.sockets && w.sockets[a].enabled == DE_READ | DE_WRITE
    ensures WantsJust(w, a, DE_READ, DE_WRITE)
  {
    OrHasEither(DE_READ, DE_WRITE);
  }

  lemma EnableDoes(w: World, a: Addr, ff: Events)
    requires a in w.sockets
    ensures OpDone(w, Handle(w, Enable(a, ff)), Enable(a, ff)) && OthersSame(w, Handle(w, Enable(a, ff)), a)
  {
    OrHasEither(w.sockets[a].enabled, ff);
    EnabledAll(w, a, ff, w.sockets[a].enabled | ff, Handle(w, Enable(a, ff)));
  }

  lemma EnabledAll(w: World, a: Addr, ff: Events, all: Events, r: World)
    requires a in w.sockets && HasEither(all, w.sockets[a].enabled, ff) && r == SetEvents(w, a, all)
    ensures OpDone(w, r, Enable(a, ff)) && OthersSame(w, r, a)
  {
    SetEventsSockets(w, a, all);
    Enabled(w, r, a, ff, all);
  }

  lemma SetEventsSockets(w: World, a: Addr, events: Events)
    requires a in w.sockets
    ensures var r := SetEvents(w, a, events);
            r.sockets == w.sockets[a := w.sockets[a].(enabled := events)] && r.byAddr == w.byAddr
  {
  }

  lemma Enabled(w: World, r: World, a: Addr, ff: Events, all: Events)
    requires a in w.sockets && r.byAddr == w.byAddr && HasEither(all, w.sockets[a].enabled, ff)
    requires r.sockets == w.sockets[a := w.sockets[a].(enabled := all)]
    ensures OpDone(w, r, Enable(a, ff)) && OthersSame(w, r, a)
  {
  }

  lemma CreateDoes(w: World, a: Addr, fd: Fd, udp: bool)
    requires Shape(w) && a in w.sockets
    ensures OpDone(w, Handle(w, Create(a, fd, udp)), Create(a, fd, udp))
    ensures OthersSame(w, Handle(w, Create(a, fd, udp)), a)
  {
    CloseKeeps(w, a, EVERY);
    CreatedSockets(w, a, fd, udp);
    var v := CloseSocket(w, a);
    var answer := OsFd(v.owner, fd);
    var s := v.sockets[a].(fd := answer);
    OpenedIs(v, a, if udp then s.(enabled := DE_READ | DE_WRITE) else s);
    assert 0 <= fd && fd !in w.owner ==> answer == fd;
    if udp {
      WantsTwo(CreateSocket(w, a, fd, udp), a);
    }
  }

  lemma OpenedIs(v: World, a: Addr, s: Socket)
    requires a !in v.byAddr
    ensures Opened(v, a, s).sockets == v.sockets[a := s]
    ensures if s.fd == INVALID_SOCKET then IsClosed(Opened(v, a, s), a) else IsOpen(Opened(v, a, s), a, s.fd)
  {
  }

  /** A sensible operation does what it says to its socket, and leaves all others. */
  lemma OpDoes(w: World, op: HandlerOp)
    requires Shape(w) && Sensible(w.sockets, w.owner, op)
    ensures OpDone(w, Handle(w, op), op) && OthersSame(w, Handle(w, op), op.a)
  {
    match op
    case New(a) => OpenedIs(w, a, Socket(INVALID_SOCKET, 0, None));
    case Wrap(a, fd) => WrapDoes(w, a, fd);
    case Enable(a, ff) => EnableDoes(w, a, ff);
    case Close(a) =>
      CloseKeeps(w, a, EVERY);
      ClosedSockets(w, a);
    case Create(a, fd, udp) => CreateDoes(w, a, fd, udp);
    case Delete(a) => DeleteDoes(w, a);
  }

  lemma DeleteDoes(w: World, a: Addr)
    requires Shape(w) && a in w.sockets && w.sockets[a].saved.None?
    ensures OpDone(w, Handle(w, Delete(a)), Delete(a)) && OthersSame(w, Handle(w, Delete(a)), a)
  {
    CloseKeeps(w, a, EVERY);
    DeletedSockets(w, a);
  }

  lemma {:induction false} OpsKeep(w: World, ops: seq<HandlerOp>, but: iset<Addr>)
    requires Shape(w) && AllAgree(w, but)
    ensures Kept(w, HandleAll(w, ops), but)
    decreases |ops|
  {
    if ops != [] {
      OpKeeps(w, ops[0], but);
      OpsKeep(Handle(w, ops[0]), ops[1..], but);
      NoKeyReturnsTrans(w, Handle(w, ops[0]), HandleAll(w, ops));
    }
  }

  // ---------- OnEvent ----------

  lemma AnnouncedKeeps(w: World, a: Addr, bit: Events, ops: seq<HandlerOp>, but: iset<Addr>)
    requires Shape(w) && AllAgree(w, but) && a in w.sockets
    ensures Kept(w, Announced(w, a, bit, ops), but)
  {
    var events := if bit == DE_CLOSE then 0 else w.sockets[a].enabled & !bit;
    SetEventsKeeps(w, a, events, but);
    var s := Signaling(a, bit, w.sockets[a].enabled, events, ops);
    HistoryIsNoState(w, SetEvents(w, a, events), w.signals + [s], but);
  }

  lemma HistoryIsNoState(w: World, v: World, signals: seq<Signaling>, but: iset<Addr>)
    requires Kept(w, v, but)
    ensures Kept(w, v.(signals := signals), but)
  {
    var r := v.(signals := signals);
    assert Shape(r);
    forall b | b in r.byAddr && b !in but ensures Agrees(r, b) {
      assert Agrees(v, b);
    }
  }

  lemma SignalKeeps(w: World, a: Addr, ff: Events, bit: Events, ops: seq<HandlerOp>, but: iset<Addr>)
    requires Shape(w) && AllAgree(w, but) && a in w.sockets
    ensures Kept(w, Signal(w, a, ff, bit, ops), but)
  {
    if ff & bit != 0 {
      var v := Announced(w, a, bit, ops);
      AnnouncedKeeps(w, a, bit, ops, but);
      OpsKeep(v, ops, but);
      assert Signal(w, a, ff, bit, ops) == HandleAll(v, ops);
      NoKeyReturnsTrans(w, v, HandleAll(v, ops));
    }
  }

  lemma StartKeeps(w: World, a: Addr, but: iset<Addr>)
    requires Shape(w) && AllAgree(w, but) && a in w.byAddr && w.sockets[a].saved.None?
    ensures Kept(w, StartBatch(w, a), but)
  {
    var r := StartBatch(w, a);
    assert OpenIsRegistered(r.sockets, r.byAddr, r.owner);
    assert ReopenedInBatch(r.sockets, r.reopened);
    forall b | b in r.byAddr && b !in but ensures Agrees(r, b) {
      assert Agrees(w, b);
    }
  }

  lemma SignaledKeeps(w: World, a: Addr, ff: Events, h: Handlers, but: iset<Addr>)
    requires Shape(w) && AllAgree(w, but) && a in w.byAddr && w.sockets[a].saved.None?
    ensures Kept(w, Signaled(w, a, ff, h), but)
  {
    StartKeeps(w, a, but);
    var w0 := StartBatch(w, a);
    SignalKeepsBatch(w0, a, ff, DE_CONNECT, h.connect, a);
    SignalKeeps(w0, a, ff, DE_CONNECT, h.connect, but);
    var w1 := Signal(w0, a, ff, DE_CONNECT, h.connect);
    SignalKeepsBatch(w1, a, ff, DE_ACCEPT, h.accept, a);
    SignalKeeps(w1, a, ff, DE_ACCEPT, h.accept, but);
    var w2 := Signal(w1, a, ff, DE_ACCEPT, h.accept);
    SignalKeepsBatch(w2, a, ff, DE_READ, h.read, a);
    SignalKeeps(w2, a, ff, DE_READ, h.read, but);
    var w3 := Signal(w2, a, ff, DE_READ, h.read);
    SignalKeepsBatch(w3, a, ff, DE_WRITE, h.write, a);
    SignalKeeps(w3, a, ff, DE_WRITE, h.write, but);
    var w4 := Signal(w3, a, ff, DE_WRITE, h.write);
    SignalKeeps(w4, a, ff, DE_CLOSE, h.close, but);
    NoKeyReturnsTrans(w, w0, w1);
    NoKeyReturnsTrans(w, w1, w2);
    NoKeyReturnsTrans(w, w2, w3);
    NoKeyReturnsTrans(w, w3, w4);
    NoKeyReturnsTrans(w, w4, Signaled(w, a, ff, h));
  }

  /** The kernel is left with an interest the socket has given up: the socket was
      registered anew in the batch with some interest and ends it with none. */
  ghost predicate LeftBehind(w: World, a: Addr) {
    a in w.byAddr && a in w.reopened && a in w.told && w.told[a] != 0
    && a in w.sockets && GetEpollEvents(w.sockets[a].enabled) == 0
  }

  lemma FinishShape(w: World, a: Addr)
    requires Shape(w) && a in w.sockets && w.sockets[a].saved.Some?
    ensures Shape(FinishBatch(w, a)) && NoKeyReturns(w, FinishBatch(w, a))
    ensures FinishBatch(w, a).byAddr == w.byAddr
  {
    SameFdKeepsOpen(w, a, w.sockets[a].(saved := None));
    assert ReopenedInBatch(FinishBatch(w, a).sockets, FinishBatch(w, a).reopened);
  }

  /** Finishing a batch brings the kernel up to date about the socket, exactly
      unless an interest was left behind. */
  lemma FinishAgreesIff(w: World, a: Addr, but: iset<Addr>)
    requires Shape(w) && AllAgree(w, but) && a in w.sockets && w.sockets[a].saved.Some? && a !in but
    ensures Shape(FinishBatch(w, a)) && AllAgree(FinishBatch(w, a), but + iset{a})
    ensures AllAgree(FinishBatch(w, a), but) <==> !LeftBehind(w, a)
  {
    var r := FinishBatch(w, a);
    FinishShape(w, a);
    forall b | b in r.byAddr && b !in but && b != a ensures Agrees(r, b) {
      assert Agrees(w, b);
    }
    if a in w.byAddr {
      assert Agrees(w, a);
      assert GetEpollEvents(0) == 0;
      assert Agrees(r, a) <==> !LeftBehind(w, a);
    }
  }

  lemma OnEventAgreesIff(w: World, a: Addr, ff: Events, h: Handlers, but: iset<Addr>)
    requires Shape(w) && AllAgree(w, but) && a in w.byAddr && w.sockets[a].saved.None? && a !in but
    ensures var r := OnEvent(w, a, ff, h);
            && Kept(w, r, but + iset{a})
            && (AllAgree(r, but) <==> !LeftBehind(Signaled(w, a, ff, h), a))
  {
    SignaledKeeps(w, a, ff, h, but);
    var v := Signaled(w, a, ff, h);
    FinishShape(v, a);
    FinishAgreesIff(v, a, but);
    NoKeyReturnsTrans(w, v, OnEvent(w, a, ff, h));
  }

  // ---------- What an event signals ----------

  predicate Has(ff: Events, bit: Events) {
    ff & bit != 0
  }

  /** The kinds of events in the order in which they are signaled. */
  function Kind(k: nat): Events {
    match k
    case 0 => DE_CONNECT
    case 1 => DE_ACCEPT
    case 2 => DE_READ
    case 3 => DE_WRITE
    case _ => DE_CLOSE
  }

  function HandlersOf(h: Handlers, k: nat): seq<HandlerOp> {
    match k
    case 0 => h.connect
    case 1 => h.accept
    case 2 => h.read
    case 3 => h.write
    case _ => h.close
  }

  /** Socket `a` signals the `k`th kind to the handlers for it, with its interest in
      it off, and in all others as before, but for a close, after which it has none. */
  predicate SignalsKind(s: Signaling, a: Addr, h: Handlers, k: nat) {
    && s.a == a && s.bit == Kind(k) && s.ops == HandlersOf(h, k)
    && !Has(s.enabled, s.bit)
    && (if k == 4 then s.enabled == 0 else s.enabled | s.bit == s.was | s.bit)
  }

  /** The signals are of these kinds, of the first `n` just those in `ff`, in order. */
  ghost predicate KindsOf(kinds: seq<nat>, signals: seq<Signaling>, a: Addr, ff: Events, h: Handlers, n: nat) {
    && |kinds| == |signals|
    && (forall i :: 0 <= i < |kinds| ==> kinds[i] < n && SignalsKind(signals[i], a, h, kinds[i]))
    && (forall i, j :: 0 <= i < j < |kinds| ==> kinds[i] < kinds[j])
    && (forall k :: 0 <= k < n ==> (Has(ff, Kind(k)) <==> k in kinds))
  }

  /** Of the first `n` kinds just those in `ff` are signaled, in their order. */
  ghost predicate SignalsFirst(signals: seq<Signaling>, a: Addr, ff: Events, h: Handlers, n: nat) {
    exists kinds: seq<nat> :: KindsOf(kinds, signals, a, ff, h, n)
  }

  lemma {:induction false} HandlersSignalNothing(w: World, ops: seq<HandlerOp>)
    ensures HandleAll(w, ops).signals == w.signals
    decreases |ops|
  {
    if ops != [] {
      OpSignalsNothing(w, ops[0]);
      HandlersSignalNothing(Handle(w, ops[0]), ops[1..]);
    }
  }

  lemma OpSignalsNothing(w: World, op: HandlerOp)
    ensures Handle(w, op).signals == w.signals
  {
  }

  /** Since the signals `before`, socket `a` has signaled the first `n` kinds. */
  ghost predicate SignaledSince(w: World, before: seq<Signaling>, a: Addr, ff: Events, h: Handlers, n: nat) {
    Batching(w, a) && before <= w.signals && SignalsFirst(w.signals[|before|..], a, ff, h, n)
  }

  lemma SignalOne(w: World, before: seq<Signaling>, a: Addr, ff: Events, h: Handlers, k: nat)
    requires k < 5 && SignaledSince(w, before, a, ff, h, k)
    ensures SignaledSince(Signal(w, a, ff, Kind(k), HandlersOf(h, k)), before, a, ff, h, k + 1)
  {
    var r, since := Signal(w, a, ff, Kind(k), HandlersOf(h, k)), w.signals[|before|..];
    SignalKeepsBatch(w, a, ff, Kind(k), HandlersOf(h, k), a);
    var kinds :| KindsOf(kinds, since, a, ff, h, k);
    if Has(ff, Kind(k)) {
      HandlersSignalNothing(Announced(w, a, Kind(k), HandlersOf(h, k)), HandlersOf(h, k));
      var s := r.signals[|w.signals|];
      AnnouncedKind(w, a, h, k);
      assert r.signals[|before|..] == since + [s];
      MoreKinds(since, s, kinds, a, ff, h, k);
    } else {
      SameKinds(since, kinds, a, ff, h, k);
    }
  }

  lemma AnnouncedKind(w: World, a: Addr, h: Handlers, k: nat)
    requires k < 5 && a in w.sockets
    ensures var r := Announced(w, a, Kind(k), HandlersOf(h, k));
            && |r.signals| == |w.signals| + 1 && SignalsKind(r.signals[|w.signals|], a, h, k)
            && a in r.sockets && r.signals[|w.signals|].was == w.sockets[a].enabled
            && r.signals[|w.signals|].enabled == r.sockets[a].enabled
  {
  }

  lemma MoreKinds(since: seq<Signaling>, s: Signaling, kinds: seq<nat>, a: Addr, ff: Events, h: Handlers, k: nat)
    requires KindsOf(kinds, since, a, ff, h, k) && Has(ff, Kind(k)) && SignalsKind(s, a, h, k)
    ensures SignalsFirst(since + [s], a, ff, h, k + 1)
  {
    assert KindsOf(kinds + [k], since + [s], a, ff, h, k + 1);
  }

  lemma SameKinds(since: seq<Signaling>, kinds: seq<nat>, a: Addr, ff: Events, h: Handlers, k: nat)
    requires KindsOf(kinds, since, a, ff, h, k) && !Has(ff, Kind(k))
    ensures SignalsFirst(since, a, ff, h, k + 1)
  {
    assert k !in kinds;
    assert KindsOf(kinds, since, a, ff, h, k + 1);
  }

  /** An OnEvent signals just the kinds of events it is given, each once, to the
      handlers of that kind and with the interest in it off: connect and accept
      before read and write, and a close last. */
  lemma SignalsOfEvent(w: World, a: Addr, ff: Events, h: Handlers)
    requires a in w.sockets && w.sockets[a].saved.None?
    ensures var r := OnEvent(w, a, ff, h);
            w.signals <= r.signals && SignalsFirst(r.signals[|w.signals|..], a, ff, h, 5)
  {
    var before, w0 := w.signals, StartBatch(w, a);
    assert KindsOf([], [], a, ff, h, 0) && w0.signals[|before|..] == [];
    AllSignaled(w0, before, a, ff, h);
  }

  lemma AllSignaled(w0: World, before: seq<Signaling>, a: Addr, ff: Events, h: Handlers)
    requires SignaledSince(w0, before, a, ff, h, 0)
    ensures SignaledSince(SignalAll(w0, a, ff, h), before, a, ff, h, 5)
  {
    SignalOne(w0, before, a, ff, h, 0);
    var w1 := Signal(w0, a, ff, DE_CONNECT, h.connect);
    SignalOne(w1, before, a, ff, h, 1);
    var w2 := Signal(w1, a, ff, DE_ACCEPT, h.accept);
    SignalOne(w2, before, a, ff, h, 2);
    var w3 := Signal(w2, a, ff, DE_READ, h.read);
    SignalOne(w3, before, a, ff, h, 3);
    var w4 := Signal(w3, a, ff, DE_WRITE, h.write);
    SignalOne(w4, before, a, ff, h, 4);
  }

  ghost const EVERY: iset<Addr> := iset a: Addr | true

  lemma OnEventShape(w: World, a: Addr, ff: Events, h: Handlers)
    requires Shape(w) && a in w.byAddr && w.sockets[a].saved.None?
    ensures Shape(OnEvent(w, a, ff, h)) && NoKeyReturns(w, OnEvent(w, a, ff, h))
  {
    SignaledKeeps(w, a, ff, h, EVERY);
    var v := Signaled(w, a, ff, h);
    FinishShape(v, a);
    NoKeyReturnsTrans(w, v, OnEvent(w, a, ff, h));
  }

  predicate CreatesNot(ops: seq<HandlerOp>, a: Addr) {
    forall op :: op in ops ==> !(op.Create? && op.a == a)
  }

  predicate NoneCreates(h: Handlers, a: Addr) {
    CreatesNot(h.connect, a) && CreatesNot(h.accept, a) && CreatesNot(h.read, a) && CreatesNot(h.write, a)
    && CreatesNot(h.close, a)
  }

  lemma OpReopensNot(w: World, op: HandlerOp, a: Addr)
    requires Batching(w, a) && a !in w.reopened && !(op.Create? && op.a == a)
    ensures a !in Handle(w, op).reopened
  {
  }

  lemma {:induction false} NoCreateNotReopened(w: World, ops: seq<HandlerOp>, a: Addr)
    requires Batching(w, a) && a !in w.reopened && CreatesNot(ops, a)
    ensures a !in HandleAll(w, ops).reopened
    decreases |ops|
  {
    if ops != [] {
      OpKeepsBatch(w, ops[0], a);
      OpReopensNot(w, ops[0], a);
      NoCreateNotReopened(Handle(w, ops[0]), ops[1..], a);
    }
  }

  lemma SignalReopensNot(w: World, a: Addr, ff: Events, bit: Events, ops: seq<HandlerOp>)
    requires Batching(w, a) && a !in w.reopened && CreatesNot(ops, a)
    ensures var r := Signal(w, a, ff, bit, ops);
            Batching(r, a) && a !in r.reopened
  {
    SignalKeepsBatch(w, a, ff, bit, ops, a);
    if ff & bit != 0 {
      AnnouncedKeepsBatch(w, a, bit, ops, a);
      NoCreateNotReopened(Announced(w, a, bit, ops), ops, a);
    }
  }

  lemma SignaledReopensNot(w: World, a: Addr, ff: Events, h: Handlers)
    requires a in w.sockets && w.sockets[a].saved.None? && a !in w.reopened && NoneCreates(h, a)
    ensures a !in Signaled(w, a, ff, h).reopened
  {
    var w0 := StartBatch(w, a);
    SignalReopensNot(w0, a, ff, DE_CONNECT, h.connect);
    var w1 := Signal(w0, a, ff, DE_CONNECT, h.connect);
    SignalReopensNot(w1, a, ff, DE_ACCEPT, h.accept);
    var w2 := Signal(w1, a, ff, DE_ACCEPT, h.accept);
    SignalReopensNot(w2, a, ff, DE_READ, h.read);
    var w3 := Signal(w2, a, ff, DE_READ, h.read);
    SignalReopensNot(w3, a, ff, DE_WRITE, h.write);
    var w4 := Signal(w3, a, ff, DE_WRITE, h.write);
    SignalReopensNot(w4, a, ff, DE_CLOSE, h.close);
  }

  /** A whole OnEvent none of whose handlers creates the socket of the event anew
      leaves the kernel in agreement with every socket. */
  lemma NoCreateAgrees(w: World, a: Addr, ff: Events, h: Handlers, but: iset<Addr>)
    requires Shape(w) && AllAgree(w, but) && a in w.byAddr && w.sockets[a].saved.None? && a !in but
    requires NoneCreates(h, a)
    ensures Kept(w, OnEvent(w, a, ff, h), but)
  {
    OnEventAgreesIff(w, a, ff, h, but);
    SignaledReopensNot(w, a, ff, h);
  }

  /** The interest left behind is real: an error on a writable socket whose write
      handler closes it and creates it again as a datagram socket. */
  lemma InterestLeftBehind()
    ensures var h := Handlers([], [], [], [Close(0), Create(0, 7, true)], []);
            var w := Handle(EMPTY, Wrap(0, 3));
            && Shape(w) && AllAgree(w, iset{}) && NoBatch(w)
            && var r := OnEvent(w, 0, DE_WRITE | DE_CLOSE, h);
               r.sockets[0].enabled == 0 && 0 in r.told && r.told[0] == EPOLLIN | EPOLLOUT
  {
    OpKeeps(EMPTY, Wrap(0, 3), iset{});
    var w := Handle(EMPTY, Wrap(0, 3));
    assert w.sockets == map[0 := Socket(3, DE_READ | DE_WRITE, None)];
    LeftBehindFrom(w, Handlers([], [], [], [Close(0), Create(0, 7, true)], []));
  }

  lemma LeftBehindFrom(w: World, h: Handlers)
    requires w.sockets == map[0 := Socket(3, DE_READ | DE_WRITE, None)] && w.owner.Keys == {3}
    requires h.write == [Close(0), Create(0, 7, true)] && h.close == []
    ensures var r := OnEvent(w, 0, DE_WRITE | DE_CLOSE, h);
            0 in r.sockets && r.sockets[0].enabled == 0 && 0 in r.told && r.told[0] == EPOLLIN | EPOLLOUT
  {
    SignaledWriteClose(w, 0, h);
    CloseAndCreate(Announced(StartBatch(w, 0), 0, DE_WRITE, h.write), h.write);
  }

  lemma SignaledWriteClose(w: World, a: Addr, h: Handlers)
    requires a in w.sockets && w.sockets[a].saved.None?
    ensures var v := StartBatch(w, a);
            var u := HandleAll(Announced(v, a, DE_WRITE, h.write), h.write);
            a in u.sockets
            && Signaled(w, a, DE_WRITE | DE_CLOSE, h) == HandleAll(Announced(u, a, DE_CLOSE, h.close), h.close)
  {
    var ff := DE_WRITE | DE_CLOSE;
    assert ff & DE_CONNECT == 0 && ff & DE_ACCEPT == 0 && ff & DE_READ == 0 && ff & DE_WRITE != 0 && ff & DE_CLOSE != 0;
    SignalKeepsBatch(StartBatch(w, a), a, ff, DE_WRITE, h.write, a);
  }

  lemma CloseAndCreate(w: World, ops: seq<HandlerOp>)
    requires ops == [Close(0), Create(0, 7, true)]
    requires w.sockets.Keys == {0} && w.owner.Keys == {3} && w.sockets[0].fd == 3 && w.sockets[0].saved.Some?
    ensures var r := HandleAll(w, ops);
            0 in r.sockets && r.sockets[0] == Socket(7, DE_READ | DE_WRITE, Some(0))
            && 0 in r.told && r.told[0] == EPOLLIN | EPOLLOUT
  {
    var v := Handle(w, Close(0));
    assert v.sockets[0] == Socket(INVALID_SOCKET, 0, Some(0));
    assert ops[1..] == [Create(0, 7, true)] && ops[1..][1..] == [];
    assert HandleAll(w, ops) == HandleAll(v, ops[1..]) == Handle(v, Create(0, 7, true));
  }

  // ---------- A pass over polled events ----------

  lemma SignaledBatching(w: World, a: Addr, ff: Events, h: Handlers, b: Addr)
    requires a in w.sockets && w.sockets[a].saved.None?
    ensures Batching(Signaled(w, a, ff, h), b) <==> b == a || Batching(w, b)
  {
    var w0 := StartBatch(w, a);
    BothKeepBatch(w0, a, ff, DE_CONNECT, h.connect, b);
    var w1 := Signal(w0, a, ff, DE_CONNECT, h.connect);
    BothKeepBatch(w1, a, ff, DE_ACCEPT, h.accept, b);
    var w2 := Signal(w1, a, ff, DE_ACCEPT, h.accept);
    BothKeepBatch(w2, a, ff, DE_READ, h.read, b);
    var w3 := Signal(w2, a, ff, DE_READ, h.read);
    BothKeepBatch(w3, a, ff, DE_WRITE, h.write, b);
    var w4 := Signal(w3, a, ff, DE_WRITE, h.write);
    BothKeepBatch(w4, a, ff, DE_CLOSE, h.close, b);
  }

  lemma BothKeepBatch(w: World, a: Addr, ff: Events, bit: Events, ops: seq<HandlerOp>, b: Addr)
    requires Batching(w, a)
    ensures Batching(Signal(w, a, ff, bit, ops), a)
    ensures Batching(Signal(w, a, ff, bit, ops), b) <==> Batching(w, b)
  {
    SignalKeepsBatch(w, a, ff, bit, ops, a);
    SignalKeepsBatch(w, a, ff, bit, ops, b);
  }

  lemma OnEventEndsBatch(w: World, a: Addr, ff: Events, h: Handlers)
    requires a in w.sockets && NoBatch(w)
    ensures NoBatch(OnEvent(w, a, ff, h))
  {
    var r := OnEvent(w, a, ff, h);
    forall b | b in r.sockets ensures r.sockets[b].saved.None? {
      SignaledBatching(w, a, ff, h, b);
    }
  }

  /** Between two calls of OnEvent. */
  ghost predicate Dispatchable(w: World) {
    Shape(w) && NoBatch(w)
  }

  /** The registration that a polled event is for, if it is still there, gets it. */
  function TakeTurn(w: World, p: Polled): (World, seq<Dispatched>)
    requires Dispatchable(w)
  {
    if p.key !in w.byKey then (w, [])
    else
      var a := w.byKey[p.key];
      var ff := EventFlags(w.sockets[a].enabled, p);
      if ff == 0 then (w, []) else (OnEvent(w, a, ff, p.h), [Dispatched(p.key, a, ff)])
  }

  lemma TurnKeeps(w: World, p: Polled)
    requires Dispatchable(w)
    ensures Dispatchable(TakeTurn(w, p).0) && NoKeyReturns(w, TakeTurn(w, p).0)
  {
    if p.key in w.byKey {
      var a := w.byKey[p.key];
      var ff := EventFlags(w.sockets[a].enabled, p);
      if ff != 0 {
        OnEventShape(w, a, ff, p.h);
        OnEventEndsBatch(w, a, ff, p.h);
      }
    }
  }

  function Pass(w: World, ps: seq<Polled>): (World, seq<Dispatched>)
    requires Dispatchable(w)
    decreases |ps|
  {
    if ps == [] then (w, [])
    else
      var (v, d) := TakeTurn(w, ps[0]);
      TurnKeeps(w, ps[0]);
      var (u, ds) := Pass(v, ps[1..]);
      (u, d + ds)
  }

  /** In a pass whose handlers add, remove and re-add dispatchers at will, each
      event goes to the registration it was polled for or to none: the receiver
      is the address that had the key when the pass began. */
  lemma {:induction false} PassDeliversToPolled(w: World, ps: seq<Polled>)
    requires Dispatchable(w) && forall p :: p in ps ==> p.key < w.next
    ensures var (u, ds) := Pass(w, ps);
            && Dispatchable(u) && NoKeyReturns(w, u)
            && (forall d :: d in ds ==> d.key in w.byKey && w.byKey[d.key] == d.a)
            && (forall d :: d in ds ==> exists p, wants :: p in ps && p.key == d.key && MeantFor(wants, p, d.ff))
    decreases |ps|
  {
    if ps != [] {
      TurnKeeps(w, ps[0]);
      var (v, d) := TakeTurn(w, ps[0]);
      PassDeliversToPolled(v, ps[1..]);
      var (u, ds) := Pass(v, ps[1..]);
      NoKeyReturnsTrans(w, v, u);
      assert ps[0] in ps;
      if d != [] {
        var wants := w.sockets[w.byKey[ps[0].key]].enabled;
        FlagsMean(wants, ps[0]);
        assert MeantFor(wants, ps[0], d[0].ff);
      }
    }
  }

  /** An event is delivered, after those before it and with the flags that go
      with what its receiver wants at that moment, or had lost its registration
      for good before its turn came. */
  lemma {:induction false} PassDeliversUnlessRemoved(w: World, ps: seq<Polled>, i: nat)
    requires Dispatchable(w) && (forall q :: q in ps ==> q.key < w.next) && i < |ps|
    requires var p := ps[i];
             p.readable || p.writable || (p.error && p.errcode)
    ensures Dispatchable(Pass(w, ps[..i]).0)
    ensures var p, (v, before), (u, ds) := ps[i], Pass(w, ps[..i]), Pass(w, ps);
            if p.key in v.byKey then
              var a := v.byKey[p.key];
              var ff := EventFlags(v.sockets[a].enabled, p);
              MeantFor(v.sockets[a].enabled, p, ff) && before + [Dispatched(p.key, a, ff)] <= ds
            else p.key !in u.byKey
    decreases |ps|
  {
    TurnKeeps(w, ps[0]);
    var (v, d) := TakeTurn(w, ps[0]);
    PassDeliversToPolled(v, ps[1..]);
    if i == 0 {
      FirstTurnDelivers(w, ps);
    } else {
      assert ps[..i][1..] == ps[1..][..i - 1] && ps[..i][0] == ps[0];
      PassDeliversUnlessRemoved(v, ps[1..], i - 1);
      PrefixBehind(d, Pass(v, ps[1..][..i - 1]).1, Pass(v, ps[1..]).1);
    }
  }

  lemma FirstTurnDelivers(w: World, ps: seq<Polled>)
    requires Dispatchable(w) && (forall q :: q in ps ==> q.key < w.next) && ps != []
    requires ps[0].readable || ps[0].writable || (ps[0].error && ps[0].errcode)
    ensures Pass(w, ps[..0]) == (w, [])
    ensures var p, (u, ds) := ps[0], Pass(w, ps);
            if p.key in w.byKey then
              var a := w.byKey[p.key];
              var ff := EventFlags(w.sockets[a].enabled, p);
              MeantFor(w.sockets[a].enabled, p, ff) && [Dispatched(p.key, a, ff)] <= ds
            else p.key !in u.byKey
  {
    TurnKeeps(w, ps[0]);
    assert ps[..0] == [];
    if ps[0].key in w.byKey {
      FlagsIff(w.sockets[w.byKey[ps[0].key]].enabled, ps[0]);
      FlagsMean(w.sockets[w.byKey[ps[0].key]].enabled, ps[0]);
    } else {
      PassDeliversToPolled(w, ps);
    }
  }

  lemma PrefixBehind(d: seq<Dispatched>, before: seq<Dispatched>, ds: seq<Dispatched>)
    ensures forall e :: before + [e] <= ds ==> (d + before) + [e] <= d + ds
  {
    forall e | before + [e] <= ds ensures (d + before) + [e] <= d + ds {
      assert (d + before) + [e] == d + (before + [e]);
      assert (d + ds)[..|d| + |before| + 1] == d + (before + [e]);
    }
  }

  /** What an event means for a receiver that wants `wants`: an accept or a read if
      it is readable, a connect or a write if it is writable, and a close on an
      error, or when there is nothing more to read because the peer is gone. */
  predicate MeantFor(wants: Events, p: Polled, ff: Events) {
    var failed := p.error && p.errcode;
    var open := p.readable && !failed && !p.closed;
    && (Has(ff, DE_ACCEPT) <==> open && Has(wants, DE_ACCEPT))
    && (Has(ff, DE_READ) <==> open && !Has(wants, DE_ACCEPT))
    && (Has(ff, DE_CONNECT) <==> p.writable && !failed && Has(wants, DE_CONNECT))
    && (Has(ff, DE_WRITE) <==> p.writable && !Has(wants, DE_CONNECT))
    && (Has(ff, DE_CLOSE) <==> failed || (p.readable && p.closed))
    && !Has(ff, !(DE_ACCEPT | DE_READ | DE_CONNECT | DE_WRITE | DE_CLOSE))
  }

  lemma FlagsMean(requested: Events, p: Polled)
    ensures MeantFor(requested, p, EventFlags(requested, p))
  {
  }

  /** An event is for its receiver exactly if it is readable, writable or an error. */
  lemma FlagsIff(requested: Events, p: Polled)
    ensures EventFlags(requested, p) != 0 <==> p.readable || p.writable || (p.error && p.errcode)
  {
  }

  /** The kernel polls for input for a socket that wants to read or to accept, for
      output for one that wants to write or to connect, and for nothing else. */
  lemma InterestMeans(wants: Events)
    ensures Has(GetEpollEvents(wants), EPOLLIN) <==> Has(wants, DE_READ) || Has(wants, DE_ACCEPT)
    ensures Has(GetEpollEvents(wants), EPOLLOUT) <==> Has(wants, DE_WRITE) || Has(wants, DE_CONNECT)
    ensures GetEpollEvents(wants) & !(EPOLLIN | EPOLLOUT) == 0
  {
  }

  /** No event of the pass leaves an interest behind. */
  ghost predicate NoneLeftBehind(w: World, ps: seq<Polled>)
    requires Dispatchable(w)
    decreases |ps|
  {
    ps == [] ||
    (TurnKeeps(w, ps[0]);
     TurnTidy(w, ps[0]) && NoneLeftBehind(TakeTurn(w, ps[0]).0, ps[1..]))
  }

  ghost predicate TurnTidy(w: World, p: Polled)
    requires Dispatchable(w)
  {
    p.key in w.byKey ==>
      var a := w.byKey[p.key];
      !LeftBehind(Signaled(w, a, EventFlags(w.sockets[a].enabled, p), p.h), a)
  }

  /** Across whole passes the kernel's picture stays that of the sockets. */
  lemma {:induction false} PassAgrees(w: World, ps: seq<Polled>)
    requires Dispatchable(w) && AllAgree(w, iset{}) && NoneLeftBehind(w, ps)
    ensures var u := Pass(w, ps).0;
            Dispatchable(u) && AllAgree(u, iset{})
    decreases |ps|
  {
    if ps != [] {
      TurnKeeps(w, ps[0]);
      if ps[0].key in w.byKey {
        var a := w.byKey[ps[0].key];
        var ff := EventFlags(w.sockets[a].enabled, ps[0]);
        if ff != 0 {
          OnEventAgreesIff(w, a, ff, ps[0].h, iset{});
        }
      }
      PassAgrees(TakeTurn(w, ps[0]).0, ps[1..]);
    }
  }

  // ---------- Every run ----------

  /** What a thread does with its server: an operation outside every handler, or
      a pass over what `epoll_wait` has reported. */
  datatype ServerAct = Do(op: HandlerOp) | Poll(ps: seq<Polled>)

  /** The kernel can report only what is registered at the moment. */
  predicate MayReport(w: World, act: ServerAct) {
    act.Poll? ==> forall p :: p in act.ps ==> p.key in w.byKey
  }

  function Acted(w: World, act: ServerAct): World
    requires Dispatchable(w)
  {
    match act
    case Do(op) => Handle(w, op)
    case Poll(ps) => Pass(w, ps).0
  }

  lemma ActKeeps(w: World, act: ServerAct)
    requires Dispatchable(w) && MayReport(w, act)
    ensures Dispatchable(Acted(w, act)) && NoKeyReturns(w, Acted(w, act))
  {
    match act
    case Do(op) =>
      OpKeeps(w, op, EVERY);
      forall a | a in Handle(w, op).sockets ensures Handle(w, op).sockets[a].saved.None? {
        OpKeepsBatch(w, op, a);
      }
    case Poll(ps) => PassDeliversToPolled(w, ps);
  }

  ghost predicate IsServerRun(w: World, acts: seq<ServerAct>)
    requires Dispatchable(w)
    decreases |acts|
  {
    acts == [] ||
    (MayReport(w, acts[0]) && (ActKeeps(w, acts[0]); IsServerRun(Acted(w, acts[0]), acts[1..])))
  }

  ghost function ServerAfter(w: World, acts: seq<ServerAct>): World
    requires Dispatchable(w) && IsServerRun(w, acts)
    decreases |acts|
  {
    if acts == [] then w
    else
      ActKeeps(w, acts[0]);
      ServerAfter(Acted(w, acts[0]), acts[1..])
  }

  /** No handler creates the socket of the very event that it handles anew. */
  ghost predicate NoneCreatesOwn(w: World, acts: seq<ServerAct>)
    requires Dispatchable(w) && IsServerRun(w, acts)
    decreases |acts|
  {
    acts == [] ||
    (&& (acts[0].Poll? ==> OwnNotCreated(w, acts[0].ps))
     && (ActKeeps(w, acts[0]); NoneCreatesOwn(Acted(w, acts[0]), acts[1..])))
  }

  predicate OwnNotCreated(w: World, ps: seq<Polled>) {
    forall p :: p in ps && p.key in w.byKey ==> NoneCreates(p.h, w.byKey[p.key])
  }

  lemma {:induction false} OwnNotCreatedAgrees(w: World, ps: seq<Polled>)
    requires Dispatchable(w) && AllAgree(w, iset{}) && (forall p :: p in ps ==> p.key < w.next)
    requires OwnNotCreated(w, ps)
    ensures var u := Pass(w, ps).0;
            Dispatchable(u) && AllAgree(u, iset{})
    decreases |ps|
  {
    if ps != [] {
      TurnKeeps(w, ps[0]);
      TurnAgrees(w, ps[0]);
      OwnNotCreatedAgrees(TakeTurn(w, ps[0]).0, ps[1..]);
    }
  }

  lemma TurnAgrees(w: World, p: Polled)
    requires Dispatchable(w) && AllAgree(w, iset{})
    requires p.key in w.byKey ==> NoneCreates(p.h, w.byKey[p.key])
    ensures Shape(TakeTurn(w, p).0) && AllAgree(TakeTurn(w, p).0, iset{})
  {
    if p.key in w.byKey {
      var a := w.byKey[p.key];
      var ff := EventFlags(w.sockets[a].enabled, p);
      if ff != 0 {
        NoCreateAgrees(w, a, ff, p.h, iset{});
      }
    }
  }

  lemma {:induction false} RunKeeps(w: World, acts: seq<ServerAct>)
    requires Dispatchable(w) && IsServerRun(w, acts)
    ensures Dispatchable(ServerAfter(w, acts)) && NoKeyReturns(w, ServerAfter(w, acts))
    ensures AllAgree(w, iset{}) && NoneCreatesOwn(w, acts) ==> AllAgree(ServerAfter(w, acts), iset{})
    decreases |acts|
  {
    if acts != [] {
      ActKeeps(w, acts[0]);
      var v := Acted(w, acts[0]);
      RunKeeps(v, acts[1..]);
      NoKeyReturnsTrans(w, v, ServerAfter(v, acts[1..]));
      if AllAgree(w, iset{}) && NoneCreatesOwn(w, acts) {
        match acts[0]
        case Do(op) => OpKeeps(w, op, iset{});
        case Poll(ps) => OwnNotCreatedAgrees(w, ps);
      }
    }
  }

  lemma {:induction false} RunInParts(w: World, first: seq<ServerAct>, more: seq<ServerAct>)
    requires Dispatchable(w) && IsServerRun(w, first + more)
    ensures IsServerRun(w, first) && Dispatchable(ServerAfter(w, first))
    ensures IsServerRun(ServerAfter(w, first), more)
    ensures ServerAfter(w, first + more) == ServerAfter(ServerAfter(w, first), more)
    decreases |first|
  {
    if first == [] {
      assert first + more == more;
    } else {
      assert (first + more)[1..] == first[1..] + more && (first + more)[0] == first[0];
      ActKeeps(w, first[0]);
      RunInParts(Acted(w, first[0]), first[1..], more);
    }
  }

  /** No key is used twice: one that a server has given out, and that is there
      later in its run, has stood for the same dispatcher in between, so that one
      that is gone stays gone. */
  lemma KeysAreNotReused(first: seq<ServerAct>, more: seq<ServerAct>, k: Key)
    requires Dispatchable(EMPTY) && IsServerRun(EMPTY, first + more)
    requires IsServerRun(EMPTY, first) && k < ServerAfter(EMPTY, first).next
    ensures Dispatchable(ServerAfter(EMPTY, first + more))
    ensures var v, w := ServerAfter(EMPTY, first), ServerAfter(EMPTY, first + more);
            && k < w.next
            && (k in w.byKey ==> k in v.byKey && v.byKey[k] == w.byKey[k])
            && (k !in v.byKey ==> k !in w.byKey)
  {
    RunInParts(EMPTY, first, more);
    RunKeeps(ServerAfter(EMPTY, first), more);
  }

  /** Over every run of a server, from its construction on: the two maps stay
      inverse, keys do not come back, no two sockets share a descriptor, and if no
      handler creates the socket of its own event anew, the kernel polls each
      registered socket for exactly what it wants. */
  lemma EveryRunAgrees(acts: seq<ServerAct>)
    requires Dispatchable(EMPTY) && IsServerRun(EMPTY, acts)
    ensures var w := ServerAfter(EMPTY, acts);
            && Dispatchable(w)
            && (forall first, more :: first + more == acts && IsServerRun(EMPTY, first) ==>
                  NoKeyReturns(ServerAfter(EMPTY, first), w))
            && (NoneCreatesOwn(EMPTY, acts) ==>
                  forall a :: a in w.byAddr ==> w.told[a] == GetEpollEvents(w.sockets[a].enabled))
  {
    RunKeeps(EMPTY, acts);
    var w := ServerAfter(EMPTY, acts);
    forall first, more | first + more == acts && IsServerRun(EMPTY, first)
      ensures NoKeyReturns(ServerAfter(EMPTY, first), w)
    {
      RunInParts(EMPTY, first, more);
      RunKeeps(ServerAfter(EMPTY, first), more);
    }
    if NoneCreatesOwn(EMPTY, acts) {
      forall a | a in w.byAddr ensures w.told[a] == GetEpollEvents(w.sockets[a].enabled) {
        assert Agrees(w, a);
      }
    }
  }

  /** And the next pass delivers each event to the registration polled, or to none. */
  lemma EveryRunDelivers(acts: seq<ServerAct>, ps: seq<Polled>)
    requires Dispatchable(EMPTY) && IsServerRun(EMPTY, acts) && Dispatchable(ServerAfter(EMPTY, acts))
    requires MayReport(ServerAfter(EMPTY, acts), Poll(ps))
    ensures var w := ServerAfter(EMPTY, acts);
            forall d :: d in Pass(w, ps).1 ==> d.key in w.byKey && w.byKey[d.key] == d.a
  {
    PassDeliversToPolled(ServerAfter(EMPTY, acts), ps);
  }
}
