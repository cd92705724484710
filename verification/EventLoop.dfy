/** `PhysicalSocketServer` and its sockets with the kernel's interest list
    (rtc_base/physical_socket_server.cc): every change goes to the kernel through
    `epoll_ctl`, whose answers the code has to cope with. */
module EventLoop {
  import opened Basics
  import opened EventLoopSpec
  import opened EventLoopRuns

  /** One entry of the kernel's interest list. */
  datatype Entry = Entry(events: Events, key: Key)

  datatype CtlOp = CtlAdd | CtlMod | CtlDel

  datatype CtlResult = CtlOk | CtlNoEntry | CtlExists

  /** What the kernel holds for descriptor `fd` is interest `told` under `key`. */
  ghost predicate Holds(epoll: map<Fd, Entry>, fd: Fd, told: Events, key: Key) {
    if told == 0 then fd !in epoll else fd in epoll && epoll[fd] == Entry(told, key)
  }

  /** The interest list holds what the kernel was told about the registered
      sockets, and nothing else. */
  ghost predicate Mirror(w: World, epoll: map<Fd, Entry>) {
    && (forall a :: a in w.byAddr ==>
          a in w.sockets && a in w.told && Holds(epoll, w.sockets[a].fd, w.told[a], w.byAddr[a]))
    && (forall fd :: fd in epoll ==> epoll[fd].key in w.byKey && OwnsFd(w, w.byKey[epoll[fd].key], fd))
  }

  ghost predicate OwnsFd(w: World, a: Addr, fd: Fd) {
    a in w.sockets && w.sockets[a].fd == fd
  }

  /** The registry in order, with no descriptor registered twice. */
  ghost predicate Registered(w: World) {
    && Inverse(w.byKey, w.byAddr) && KeysBelow(w.byKey, w.next) && w.told.Keys == w.byAddr.Keys
    && (forall a :: a in w.byAddr ==> a in w.sockets && Owns(w, a))
  }

  ghost predicate Owns(w: World, a: Addr)
    requires a in w.sockets
  {
    var fd := w.sockets[a].fd;
    fd != INVALID_SOCKET && fd in w.owner && w.owner[fd] == a
  }

  class PhysicalSocketServer {
    var dispatcherByKey: map<Key, Addr>
    var keyByDispatcher: map<Addr, Key>
    var nextDispatcherKey: Key
    var sockets: map<Addr, Socket>
    /** The system's state: its open descriptors, and the interest list. */
    var openFds: map<Fd, Addr>
    var epoll: map<Fd, Entry>
    ghost var world: World

    ghost predicate Tied()
      reads this
    {
      && world.byKey == dispatcherByKey && world.byAddr == keyByDispatcher && world.next == nextDispatcherKey
      && world.sockets == sockets && world.owner == openFds
      && Registered(world) && Mirror(world, epoll)
    }

    ghost predicate Valid()
      reads this
    {
      Tied() && Shape(world)
    }

    constructor ()
      ensures Valid() && world == EMPTY
    {
      dispatcherByKey, keyByDispatcher, nextDispatcherKey := map[], map[], 0;
      sockets, openFds, epoll, world := map[], map[], map[], EMPTY;
    }

    /** The kernel's side of `epoll_ctl`. */
    method EpollCtl(op: CtlOp, fd: Fd, entry: Entry) returns (r: CtlResult)
      modifies `epoll
      ensures match op
              case CtlAdd => if fd in old(epoll) then r == CtlExists && epoll == old(epoll)
                             else r == CtlOk && epoll == old(epoll)[fd := entry]
              case CtlMod => if fd in old(epoll) then r == CtlOk && epoll == old(epoll)[fd := entry]
                             else r == CtlNoEntry && epoll == old(epoll)
              case CtlDel => if fd in old(epoll) then r == CtlOk && epoll == old(epoll) - {fd}
                             else r == CtlNoEntry && epoll == old(epoll)
    {
      match op
      case CtlAdd =>
        if fd in epoll {
          r := CtlExists;
        } else {
          epoll := epoll[fd := entry];
          r := CtlOk;
        }
      case CtlMod =>
        if fd in epoll {
          epoll := epoll[fd := entry];
          r := CtlOk;
        } else {
          r := CtlNoEntry;
        }
      case CtlDel =>
        if fd in epoll {
          epoll := epoll - {fd};
          r := CtlOk;
        } else {
          r := CtlNoEntry;
        }
    }

    method Add(a: Addr)
      requires Tied() && a in sockets && Owns(world, a)
      modifies this
      ensures Tied() && world == if a in old(keyByDispatcher) then old(world) else Register(old(world), a)
    {
      if a in keyByDispatcher {
        return;
      }
      MirrorOfNew(world, epoll, a);
      var key := nextDispatcherKey;
      nextDispatcherKey := nextDispatcherKey + 1;
      dispatcherByKey := dispatcherByKey[key := a];
      keyByDispatcher := keyByDispatcher[a := key];
      world := Register(world, a);
      AddEpoll(a, key);
    }

    method AddEpoll(a: Addr, key: Key)
      requires a in sockets && sockets[a].fd !in epoll
      modifies `epoll
      ensures epoll == WithInterest(old(epoll), sockets[a].fd, GetEpollEvents(sockets[a].enabled), key)
    {
      var fd, events := sockets[a].fd, GetEpollEvents(sockets[a].enabled);
      if events == 0 {
        return;
      }
      var err := EpollCtl(CtlAdd, fd, Entry(events, key));
      assert err == CtlOk;
    }

    method Remove(a: Addr)
      requires Tied() && a in sockets
      modifies this
      ensures Tied() && world == if a in old(keyByDispatcher) then Unregister(old(world), a) else old(world)
    {
      if a !in keyByDispatcher {
        return;
      }
      MirrorOfRemoved(world, epoll, a);
      var key := keyByDispatcher[a];
      keyByDispatcher := keyByDispatcher - {a};
      dispatcherByKey := dispatcherByKey - {key};
      world := Unregister(world, a);
      RemoveEpoll(a);
    }

    method RemoveEpoll(a: Addr)
      requires a in sockets
      modifies `epoll
      ensures epoll == old(epoll) - {sockets[a].fd}
    {
      var err := EpollCtl(CtlDel, sockets[a].fd, Entry(0, 0));
      assert err == CtlOk || err == CtlNoEntry;
    }

    /** `Update`, and the notes the ghost world keeps of it. */
    method Update(a: Addr)
      requires Tied() && a in sockets
      modifies this
      ensures Tied()
      ensures world == if a in keyByDispatcher
                       then old(world).(told := old(world).told[a := GetEpollEvents(sockets[a].enabled)])
                       else old(world)
      ensures sockets == old(sockets)
    {
      if a !in keyByDispatcher {
        return;
      }
      MirrorOfUpdated(world, epoll, a, GetEpollEvents(sockets[a].enabled));
      world := world.(told := world.told[a := GetEpollEvents(sockets[a].enabled)]);
      UpdateEpoll(a, keyByDispatcher[a]);
    }

    method UpdateEpoll(a: Addr, key: Key)
      requires a in sockets
      modifies `epoll
      ensures epoll == WithInterest(old(epoll), sockets[a].fd, GetEpollEvents(sockets[a].enabled), key)
    {
      var fd, events := sockets[a].fd, GetEpollEvents(sockets[a].enabled);
      if events == 0 {
        var _ := EpollCtl(CtlDel, fd, Entry(events, key));
      } else {
        var err := EpollCtl(CtlMod, fd, Entry(events, key));
        if err != CtlOk {
          // Removed earlier because it had no requested events.
          err := EpollCtl(CtlAdd, fd, Entry(events, key));
          assert err == CtlOk;
        }
      }
    }

    /** `SetEnabledEvents`, `EnableEvents` and `DisableEvents` of a dispatcher. */
    method SetEnabledEvents(a: Addr, events: Events)
      requires Tied() && a in sockets
      modifies this
      ensures Tied() && world == SetEvents(old(world), a, events)
    {
      var oldEvents := sockets[a].enabled;
      PutSocket(a, sockets[a].(enabled := events));
      MaybeUpdateDispatcher(a, oldEvents);
    }

    method MaybeUpdateDispatcher(a: Addr, oldEvents: Events)
      requires Tied() && a in sockets
      modifies this
      ensures Tied() && sockets == old(sockets)
      ensures world == if GetEpollEvents(sockets[a].enabled) != GetEpollEvents(oldEvents) && sockets[a].saved.None?
                          && a in keyByDispatcher
                       then old(world).(told := old(world).told[a := GetEpollEvents(sockets[a].enabled)])
                       else old(world)
    {
      if GetEpollEvents(sockets[a].enabled) != GetEpollEvents(oldEvents) && sockets[a].saved.None? {
        Update(a);
      }
    }

    method Close(a: Addr)
      requires Valid() && a in sockets
      modifies this
      ensures Valid() && world == CloseSocket(old(world), a)
    {
      if sockets[a].fd == INVALID_SOCKET {
        return;
      }
      CloseKeeps(world, a, EVERY);
      CloseInSteps(world, a);
      CloseOpen(a);
    }

    method CloseOpen(a: Addr)
      requires Tied() && a in sockets && a in keyByDispatcher
      modifies this
      ensures Tied()
      ensures var v := Unregister(Marked(old(world), a), a);
              world == v.(sockets := v.sockets[a := Socket(INVALID_SOCKET, 0, v.sockets[a].saved)],
                          owner := v.owner - {v.sockets[a].fd}, reopened := v.reopened - {a})
    {
      ForgetSaved(a);
      Remove(a);
      CloseDescriptor(a);
      SetReopened(world.reopened - {a});
    }

    /** Only the ghost world knows which sockets were registered anew. */
    ghost method SetReopened(reopened: set<Addr>)
      requires Tied()
      modifies `world
      ensures Tied() && world == old(world).(reopened := reopened)
    {
      world := world.(reopened := reopened);
    }

    /** In a batch, the events saved for its end are dropped. */
    method ForgetSaved(a: Addr)
      requires Tied() && a in sockets
      modifies `sockets, `world
      ensures Tied() && world == Marked(old(world), a)
    {
      if sockets[a].saved.Some? {
        PutSocket(a, sockets[a].(saved := Some(0)));
      }
    }

    /** `PhysicalSocket::Close`: the system closes the descriptor. */
    method CloseDescriptor(a: Addr)
      requires Tied() && a in sockets && a !in keyByDispatcher && Owns(world, a)
      modifies this
      ensures Tied()
      ensures world == old(world).(sockets := old(sockets)[a := Socket(INVALID_SOCKET, 0, old(sockets)[a].saved)],
                                   owner := old(openFds) - {old(sockets)[a].fd})
    {
      var fd := sockets[a].fd;
      PutSocket(a, sockets[a].(fd := INVALID_SOCKET));
      GiveBack(a, fd);
      SetEnabledEvents(a, 0);
    }

    /** The system's side of `close`. */
    method GiveBack(a: Addr, fd: Fd)
      requires Tied() && fd in openFds && openFds[fd] == a && a !in keyByDispatcher
      modifies `openFds, `world
      ensures Tied() && world == old(world).(owner := old(openFds) - {fd})
    {
      openFds := openFds - {fd};
      world := world.(owner := openFds);
    }

    /** Writes the fields of one dispatcher, keeping the ghost world in step. */
    method PutSocket(a: Addr, s: Socket)
      requires Tied() && (a in keyByDispatcher ==> a in sockets && s.fd == sockets[a].fd)
      modifies `sockets, `world
      ensures Tied() && world == old(world).(sockets := old(sockets)[a := s])
    {
      if a in keyByDispatcher {
        MirrorOfSame(world, epoll, a, s);
      } else {
        MirrorOfNewAddress(world, epoll, a, s);
      }
      sockets := sockets[a := s];
      world := world.(sockets := sockets);
    }

    /** A descriptor from the system for a dispatcher that has none. */
    method OpenDescriptor(a: Addr, s: Socket)
      requires Tied() && a !in keyByDispatcher && s.fd !in openFds
      modifies `sockets, `openFds, `world
      ensures Tied() && world == Given(old(world), a, s)
    {
      PutSocket(a, s);
      if s.fd != INVALID_SOCKET {
        HandOut(a, s.fd);
      }
    }

    /** The system's side of `socket`. */
    method HandOut(a: Addr, fd: Fd)
      requires Tied() && fd !in openFds
      modifies `openFds, `world
      ensures Tied() && world == old(world).(owner := old(openFds)[fd := a])
    {
      openFds := openFds[fd := a];
      world := world.(owner := openFds);
      assert forall b :: b in world.byAddr ==> Owns(old(world), b);
    }

    /** `SocketDispatcher::Create`; `fd` is what the system answers to `socket`. */
    method Create(a: Addr, fd: Fd, udp: bool) returns (ok: bool)
      requires Valid() && a in sockets
      modifies this
      ensures Valid() && world == CreateSocket(old(world), a, fd, udp)
      ensures ok <==> a in keyByDispatcher
    {
      CloseKeeps(world, a, EVERY);
      CreateKeeps(world, a, fd, udp, EVERY);
      CreateInSteps(world, a, fd, udp);
      Close(a);
      ok := Open(a, OsFd(openFds, fd), udp);
    }

    /** The rest of Create, with the dispatcher closed and the system's answer. */
    method Open(a: Addr, answer: Fd, udp: bool) returns (ok: bool)
      requires Tied() && a in sockets && a !in keyByDispatcher && answer !in openFds
      modifies this
      ensures Tied() && (ok <==> a in keyByDispatcher)
      ensures var u := Given(old(world), a, old(sockets)[a].(fd := answer));
              var t := if udp then SetEvents(u, a, DE_READ | DE_WRITE) else u;
              world == if answer == INVALID_SOCKET then t else Initialized(t, a)
    {
      ok := answer != INVALID_SOCKET;
      OpenDescriptor(a, sockets[a].(fd := answer));
      if udp {
        SetEnabledEvents(a, DE_READ | DE_WRITE);
      }
      if ok {
        Initialize(a);
      }
    }

    /** `Initialize` in a batch or outside one. */
    method Initialize(a: Addr)
      requires Tied() && a in sockets && Owns(world, a) && a !in keyByDispatcher
      modifies this
      ensures Tied() && a in keyByDispatcher
      ensures world == Initialized(old(world), a)
    {
      if sockets[a].saved.Some? {
        SetReopened(world.reopened + {a});
      }
      Add(a);
    }

    /** A new dispatcher without a descriptor. */
    method New(a: Addr)
      requires Valid() && a !in sockets
      modifies this
      ensures Valid() && world == Handle(old(world), HandlerOp.New(a))
    {
      OpKeeps(world, HandlerOp.New(a), EVERY);
      PutSocket(a, Socket(INVALID_SOCKET, 0, None));
    }

    /** `WrapSocket`: a new dispatcher for an open descriptor. */
    method Wrap(a: Addr, fd: Fd)
      requires Valid() && a !in sockets && OsFd(openFds, fd) != INVALID_SOCKET
      modifies this
      ensures Valid() && world == Handle(old(world), HandlerOp.Wrap(a, fd))
    {
      OpKeeps(world, HandlerOp.Wrap(a, fd), EVERY);
      OpenDescriptor(a, Socket(fd, DE_READ | DE_WRITE, None));
      Initialize(a);
    }

    method Delete(a: Addr)
      requires Valid() && a in sockets && sockets[a].saved.None?
      modifies this
      ensures Valid() && world == Handle(old(world), HandlerOp.Delete(a))
    {
      CloseKeeps(world, a, EVERY);
      DeleteKeeps(world, a, EVERY);
      Close(a);
      Free(a);
    }

    /** The memory of a dispatcher that is not registered is freed. */
    method Free(a: Addr)
      requires Tied() && a !in keyByDispatcher
      modifies `sockets, `world
      ensures Tied() && world == old(world).(sockets := old(sockets) - {a})
    {
      MirrorOfFreed(world, epoll, a);
      sockets := sockets - {a};
      world := world.(sockets := sockets);
    }

    method RunHandler(ops: seq<HandlerOp>)
      requires Valid()
      modifies this
      ensures Valid() && world == HandleAll(old(world), ops)
    {
      var i := 0;
      while i < |ops|
        invariant 0 <= i <= |ops| && Valid()
        invariant HandleAll(world, ops[i..]) == HandleAll(old(world), ops)
      {
        assert ops[i..][0] == ops[i] && ops[i..][1..] == ops[i + 1..];
        RunOp(ops[i]);
        i := i + 1;
      }
    }

    method RunOp(op: HandlerOp)
      requires Valid()
      modifies this
      ensures Valid() && world == Handle(old(world), op)
    {
      if !Sensible(sockets, openFds, op) {
        return;
      }
      OpKeeps(world, op, EVERY);
      match op
      case New(a) => New(a);
      case Wrap(a, fd) => Wrap(a, fd);
      case Enable(a, ff) =>
        SetEnabledEvents(a, sockets[a].enabled | ff);
      case Close(a) => Close(a);
      case Create(a, fd, udp) => var _ := Create(a, fd, udp);
      case Delete(a) => Delete(a);
    }

    method StartBatchedEventUpdates(a: Addr)
      requires Valid() && a in keyByDispatcher && sockets[a].saved.None?
      modifies this
      ensures Valid() && world == StartBatch(old(world), a)
    {
      StartKeeps(world, a, EVERY);
      PutSocket(a, sockets[a].(saved := Some(sockets[a].enabled)));
    }

    method FinishBatchedEventUpdates(a: Addr)
      requires Valid() && a in sockets && sockets[a].saved.Some?
      modifies this
      ensures Valid() && world == FinishBatch(old(world), a)
    {
      FinishShape(world, a);
      var oldEvents := sockets[a].saved.value;
      PutSocket(a, sockets[a].(saved := None));
      SetReopened(world.reopened - {a});
      MaybeUpdateDispatcher(a, oldEvents);
    }

    /** One of the `if ((ff & ...) != 0)` blocks of `OnEvent`. */
    method SignalEvent(a: Addr, ff: Events, bit: Events, ops: seq<HandlerOp>)
      requires Valid() && a in sockets && sockets[a].saved.Some?
      modifies this
      ensures Valid() && world == Signal(old(world), a, ff, bit, ops)
      ensures a in sockets && sockets[a].saved.Some?
    {
      SignalKeepsBatch(world, a, ff, bit, ops, a);
      if ff & bit != 0 {
        AnnouncedKeeps(world, a, bit, ops, EVERY);
        Disable(a, bit, ops);
        RunHandler(ops);
      }
    }

    /** The event is disabled, or all are for a close, before it is signaled. */
    method Disable(a: Addr, bit: Events, ghost ops: seq<HandlerOp>)
      requires Tied() && a in sockets
      modifies this
      ensures Tied() && world == Announced(old(world), a, bit, ops)
    {
      ghost var was := sockets[a].enabled;
      var events := if bit == DE_CLOSE then 0 else sockets[a].enabled & !bit;
      SetEnabledEvents(a, events);
      NoteSignal(Signaling(a, bit, was, events, ops));
    }

    /** Only the ghost world keeps the history. */
    ghost method NoteSignal(s: Signaling)
      requires Tied()
      modifies `world
      ensures Tied() && world == old(world).(signals := old(world).signals + [s])
    {
      world := world.(signals := world.signals + [s]);
    }

    method OnEvent(a: Addr, ff: Events, h: Handlers)
      requires Valid() && a in keyByDispatcher && sockets[a].saved.None?
      modifies this
      ensures Valid() && world == EventLoopSpec.OnEvent(old(world), a, ff, h)
      ensures old(world).signals <= world.signals
      ensures SignalsFirst(world.signals[|old(world).signals|..], a, ff, h, 5)
    {
      SignalsOfEvent(world, a, ff, h);
      StartBatchedEventUpdates(a);
      SignalEvent(a, ff, DE_CONNECT, h.connect);
      SignalEvent(a, ff, DE_ACCEPT, h.accept);
      SignalEvent(a, ff, DE_READ, h.read);
      SignalEvent(a, ff, DE_WRITE, h.write);
      SignalEvent(a, ff, DE_CLOSE, h.close);
      FinishBatchedEventUpdates(a);
    }

    /** The loop of `WaitEpoll` over the events of one `epoll_wait`. */
    method DispatchPolled(ps: seq<Polled>) returns (ds: seq<Dispatched>)
      requires Valid() && NoBatch(world)
      modifies this
      ensures Valid() && NoBatch(world) && (world, ds) == Pass(old(world), ps)
    {
      ds := [];
      var rest := ps;
      assert [] + Pass(world, ps).1 == Pass(world, ps).1;
      while rest != []
        invariant Valid() && NoBatch(world)
        invariant ResumedPass(world, rest, ds) == Pass(old(world), ps)
        decreases |rest|
      {
        ResumeAfterTurn(world, rest, ds);
        var d := TakeOneTurn(rest[0]);
        ds, rest := ds + d, rest[1..];
      }
      assert ds + [] == ds;
    }

    method TakeOneTurn(p: Polled) returns (d: seq<Dispatched>)
      requires Valid() && NoBatch(world)
      modifies this
      ensures Valid() && NoBatch(world) && (world, d) == TakeTurn(old(world), p)
      ensures |d| <= 1
      ensures d != [] <==> p.key in old(dispatcherByKey) && (p.readable || p.writable || (p.error && p.errcode))
      ensures d != [] ==>
                var a := old(dispatcherByKey)[p.key];
                d[0].key == p.key && d[0].a == a && a in old(sockets)
                && MeantFor(old(sockets)[a].enabled, p, d[0].ff)
    {
      TurnKeeps(world, p);
      d := [];
      if p.key !in dispatcherByKey {
        return;
      }
      var a := dispatcherByKey[p.key];
      var ff := EventFlags(sockets[a].enabled, p);
      FlagsIff(sockets[a].enabled, p);
      FlagsMean(sockets[a].enabled, p);
      if ff != 0 {
        OnEvent(a, ff, p.h);
        d := [Dispatched(p.key, a, ff)];
      }
    }
  }

  /** The outcome of a pass that has made the deliveries `ds` already. */
  function ResumedPass(w: World, ps: seq<Polled>, ds: seq<Dispatched>): (World, seq<Dispatched>)
    requires Dispatchable(w)
  {
    var r := Pass(w, ps);
    (r.0, ds + r.1)
  }

  lemma ResumeAfterTurn(w: World, ps: seq<Polled>, ds: seq<Dispatched>)
    requires Dispatchable(w) && ps != []
    ensures var turn := TakeTurn(w, ps[0]);
            Dispatchable(turn.0) && ResumedPass(w, ps, ds) == ResumedPass(turn.0, ps[1..], ds + turn.1)
  {
    TurnKeeps(w, ps[0]);
    var turn := TakeTurn(w, ps[0]);
    ConcatAssoc(ds, turn.1, Pass(turn.0, ps[1..]).1);
  }

  lemma ConcatAssoc<T>(a: seq<T>, b: seq<T>, c: seq<T>)
    ensures a + (b + c) == a + b + c
  {
  }

  /** What `epoll_wait` can report are keys of current registrations, with the
      interest of the socket registered under the key. */
  lemma PolledAreRegistered(w: World, epoll: map<Fd, Entry>, fd: Fd)
    requires Registered(w) && Mirror(w, epoll) && fd in epoll
    ensures var key := epoll[fd].key;
            && key in w.byKey && key < w.next && OwnsFd(w, w.byKey[key], fd)
            && epoll[fd].events == w.told[w.byKey[key]] != 0
  {
    assert Holds(epoll, fd, w.told[w.byKey[epoll[fd].key]], epoll[fd].key);
  }

  /** Outside a batch the kernel's entry for a registered socket is the interest
      in its enabled events, under its key, and is absent when there is none. */
  lemma EpollAgreement(w: World, epoll: map<Fd, Entry>, a: Addr)
    requires Shape(w) && Mirror(w, epoll) && AllAgree(w, iset{}) && a in w.byAddr && w.sockets[a].saved.None?
    ensures var fd, interest := w.sockets[a].fd, GetEpollEvents(w.sockets[a].enabled);
            && (fd in epoll <==> interest != 0)
            && (fd in epoll ==> epoll[fd] == Entry(interest, w.byAddr[a]))
    ensures var fd, wants := w.sockets[a].fd, w.sockets[a].enabled;
            && (fd in epoll && Has(epoll[fd].events, EPOLLIN) <==> Has(wants, DE_READ) || Has(wants, DE_ACCEPT))
            && (fd in epoll && Has(epoll[fd].events, EPOLLOUT) <==> Has(wants, DE_WRITE) || Has(wants, DE_CONNECT))
  {
    InterestMeans(w.sockets[a].enabled);
    assert Agrees(w, a);
    assert Holds(epoll, w.sockets[a].fd, w.told[a], w.byAddr[a]);
  }

  // ---------- Close and Create in the steps in which they are done ----------

  function Given(w: World, a: Addr, s: Socket): World {
    w.(sockets := w.sockets[a := s], owner := if s.fd == INVALID_SOCKET then w.owner else w.owner[s.fd := a])
  }

  function Initialized(w: World, a: Addr): World
    requires a in w.sockets
  {
    Register(if w.sockets[a].saved.Some? then w.(reopened := w.reopened + {a}) else w, a)
  }

  function Marked(w: World, a: Addr): World
    requires a in w.sockets
  {
    if w.sockets[a].saved.Some? then w.(sockets := w.sockets[a := w.sockets[a].(saved := Some(0))]) else w
  }

  lemma CloseInSteps(w: World, a: Addr)
    requires Shape(w) && a in w.sockets && w.sockets[a].fd != INVALID_SOCKET
    ensures a in w.byAddr && Owns(w, a)
    ensures var v := Unregister(Marked(w, a), a);
            CloseSocket(w, a) == v.(sockets := v.sockets[a := Socket(INVALID_SOCKET, 0, v.sockets[a].saved)],
                                    owner := v.owner - {v.sockets[a].fd}, reopened := v.reopened - {a})
  {
    var v := Unregister(Marked(w, a), a);
    assert v.sockets[a := Socket(INVALID_SOCKET, 0, v.sockets[a].saved)]
        == w.sockets[a := Socket(INVALID_SOCKET, 0, v.sockets[a].saved)];
  }

  lemma CreateInSteps(w: World, a: Addr, fd: Fd, udp: bool)
    requires Shape(w) && a in w.sockets
    ensures var v := CloseSocket(w, a);
            && a in v.sockets && a !in v.byAddr && INVALID_SOCKET !in v.owner
            && var fd' := OsFd(v.owner, fd);
               var u := Given(v, a, v.sockets[a].(fd := fd'));
               var t := if udp then SetEvents(u, a, DE_READ | DE_WRITE) else u;
               CreateSocket(w, a, fd, udp) == if fd' == INVALID_SOCKET then t else Initialized(t, a)
  {
    CloseKeeps(w, a, EVERY);
    OpenInSteps(CloseSocket(w, a), a, OsFd(CloseSocket(w, a).owner, fd), udp);
  }

  lemma OpenInSteps(v: World, a: Addr, fd: Fd, udp: bool)
    requires a in v.sockets && a !in v.byAddr
    ensures var u := Given(v, a, v.sockets[a].(fd := fd));
            var t := if udp then SetEvents(u, a, DE_READ | DE_WRITE) else u;
            var s := v.sockets[a].(fd := fd);
            Opened(v, a, if udp then s.(enabled := DE_READ | DE_WRITE) else s)
            == if fd == INVALID_SOCKET then t else Initialized(t, a)
  {
    var s := v.sockets[a].(fd := fd);
    assert v.sockets[a := s][a := s.(enabled := DE_READ | DE_WRITE)]
           == v.sockets[a := s.(enabled := DE_READ | DE_WRITE)];
  }

  lemma MirrorOfNewAddress(w: World, epoll: map<Fd, Entry>, a: Addr, s: Socket)
    requires Registered(w) && Mirror(w, epoll) && a !in w.byAddr
    ensures var r := w.(sockets := w.sockets[a := s]);
            Registered(r) && Mirror(r, epoll)
  {
  }

  lemma MirrorOfFreed(w: World, epoll: map<Fd, Entry>, a: Addr)
    requires Registered(w) && Mirror(w, epoll) && a !in w.byAddr
    ensures var r := w.(sockets := w.sockets - {a});
            Registered(r) && Mirror(r, epoll)
  {
  }

  /** The interest list with `events` for `fd`, or without `fd` when there are none. */
  function WithInterest(epoll: map<Fd, Entry>, fd: Fd, events: Events, key: Key): map<Fd, Entry> {
    if events == 0 then epoll - {fd} else epoll[fd := Entry(events, key)]
  }

  lemma MirrorOfNew(w: World, epoll: map<Fd, Entry>, a: Addr)
    requires Registered(w) && Mirror(w, epoll) && a in w.sockets && a !in w.byAddr
    requires Owns(w, a)
    ensures w.sockets[a].fd !in epoll
    ensures var r := Register(w, a);
            Registered(r) && Mirror(r, WithInterest(epoll, w.sockets[a].fd, r.told[a], w.next))
  {
    RegisterKeeps(w, a);
    assert forall b :: b in w.byAddr ==> Owns(w, b);
    MirrorOfMore(w, epoll, Register(w, a), a);
  }

  lemma MirrorOfMore(w: World, epoll: map<Fd, Entry>, r: World, a: Addr)
    requires Mirror(w, epoll) && Inverse(w.byKey, w.byAddr) && KeysBelow(w.byKey, w.next)
    requires a in w.sockets && a !in w.byAddr && forall b :: b in w.byAddr ==> w.sockets[b].fd != w.sockets[a].fd
    requires r.sockets == w.sockets && a in r.told && r.told == w.told[a := r.told[a]]
    requires r.byAddr == w.byAddr[a := w.next] && r.byKey == w.byKey[w.next := a]
    ensures Mirror(r, WithInterest(epoll, w.sockets[a].fd, r.told[a], w.next))
  {
    var e := WithInterest(epoll, w.sockets[a].fd, r.told[a], w.next);
    forall b | b in r.byAddr ensures Holds(e, r.sockets[b].fd, r.told[b], r.byAddr[b]) {
      assert b != a ==> Holds(epoll, w.sockets[b].fd, w.told[b], w.byAddr[b]);
    }
  }

  lemma MirrorOfRemoved(w: World, epoll: map<Fd, Entry>, a: Addr)
    requires Registered(w) && Mirror(w, epoll) && a in w.byAddr
    ensures Registered(Unregister(w, a)) && Mirror(Unregister(w, a), epoll - {w.sockets[a].fd})
  {
    UnregisterKeeps(w, a);
    var r, e := Unregister(w, a), epoll - {w.sockets[a].fd};
    forall b | b in r.byAddr ensures Holds(e, r.sockets[b].fd, r.told[b], r.byAddr[b]) {
      assert Holds(epoll, w.sockets[b].fd, w.told[b], w.byAddr[b]);
    }
    forall fd | fd in e ensures e[fd].key in r.byKey {
      assert OwnsFd(w, w.byKey[epoll[fd].key], fd);
    }
  }

  lemma MirrorOfUpdated(w: World, epoll: map<Fd, Entry>, a: Addr, told: Events)
    requires Registered(w) && Mirror(w, epoll) && a in w.byAddr
    ensures var r := w.(told := w.told[a := told]);
            Registered(r) && Mirror(r, WithInterest(epoll, w.sockets[a].fd, told, w.byAddr[a]))
  {
    var r, e := w.(told := w.told[a := told]), WithInterest(epoll, w.sockets[a].fd, told, w.byAddr[a]);
    forall b | b in r.byAddr ensures Holds(e, r.sockets[b].fd, r.told[b], r.byAddr[b]) {
      assert Holds(epoll, w.sockets[b].fd, w.told[b], w.byAddr[b]);
    }
  }

  lemma MirrorOfSame(w: World, epoll: map<Fd, Entry>, a: Addr, s: Socket)
    requires Registered(w) && Mirror(w, epoll) && a in w.sockets
    requires s.fd == w.sockets[a].fd
    ensures var r := w.(sockets := w.sockets[a := s]);
            Registered(r) && Mirror(r, epoll)
  {
  }
}
