/** The sockets of a `PhysicalSocketServer`, its registry of dispatchers, and
    what the kernel has been told about each of them, without the kernel
    (rtc_base/physical_socket_server.cc). Sockets are records found by address:
    an address can be freed and used again, which is what the keys are for. */
module EventLoopSpec {

  import opened Basics

  type Addr = nat
  type Key = nat
  type Fd = int
  type Events = bv8

  const INVALID_SOCKET: Fd := -1
  const DE_READ: Events := 0x01
  const DE_WRITE: Events := 0x02
  const DE_CONNECT: Events := 0x04
  const DE_CLOSE: Events := 0x08
  const DE_ACCEPT: Events := 0x10
  const EPOLLIN: Events := 0x01
  const EPOLLOUT: Events := 0x04

  /** A `SocketDispatcher`; `saved` is None for the -1 of `saved_enabled_events_`. */
  datatype Socket = Socket(fd: Fd, enabled: Events, saved: Option<Events>)

  /** `told` is the interest the kernel was last told for a registered socket;
      `reopened` the sockets registered anew since their batch began; `owner` the
      system's open descriptors and whose they are; `signals` the history of what
      sockets have signaled. */
  datatype World = World(byKey: map<Key, Addr>, byAddr: map<Addr, Key>, next: Key,
                         sockets: map<Addr, Socket>, told: map<Addr, Events>, reopened: set<Addr>,
                         owner: map<Fd, Addr>, signals: seq<Signaling>)

  const EMPTY := World(map[], map[], 0, map[], map[], {}, map[], [])

  /** Socket `a` signals the kind of event `bit`, to handlers that do `ops`; its
      enabled events were `was` before, and are `enabled` when they run. */
  datatype Signaling = Signaling(a: Addr, bit: Events, was: Events, enabled: Events, ops: seq<HandlerOp>)

  function GetEpollEvents(ff: Events): Events {
    (if ff & (DE_READ | DE_ACCEPT) != 0 then EPOLLIN else 0)
    | (if ff & (DE_WRITE | DE_CONNECT) != 0 then EPOLLOUT else 0)
  }

  // ---------- Registry ----------

  function Register(w: World, a: Addr): World
    requires a in w.sockets
  {
    w.(byKey := w.byKey[w.next := a], byAddr := w.byAddr[a := w.next], next := w.next + 1,
       told := w.told[a := GetEpollEvents(w.sockets[a].enabled)])
  }

  function Unregister(w: World, a: Addr): World
    requires a in w.byAddr
  {
    w.(byKey := w.byKey - {w.byAddr[a]}, byAddr := w.byAddr - {a}, told := w.told - {a})
  }

  // ---------- Sockets ----------

  /** Sets the enabled events; outside a batch a change of interest is passed on. */
  function SetEvents(w: World, a: Addr, ff: Events): World
    requires a in w.sockets
  {
    var s := w.sockets[a];
    var w := w.(sockets := w.sockets[a := s.(enabled := ff)]);
    if GetEpollEvents(ff) != GetEpollEvents(s.enabled) && s.saved.None? && a in w.byAddr
    then w.(told := w.told[a := GetEpollEvents(ff)]) else w
  }

  function CloseSocket(w: World, a: Addr): World
    requires a in w.sockets
  {
    var s := w.sockets[a];
    if s.fd == INVALID_SOCKET then w
    else
      var w := if a in w.byAddr then Unregister(w, a) else w;
      w.(sockets := w.sockets[a := Socket(INVALID_SOCKET, 0, if s.saved.Some? then Some(0) else None)],
         reopened := w.reopened - {a}, owner := w.owner - {s.fd})
  }

  /** The system's answer to `socket`: never a descriptor that is open. */
  function OsFd(owner: map<Fd, Addr>, fd: Fd): (answer: Fd)
    ensures 0 <= fd && fd !in owner ==> answer == fd
    ensures answer != INVALID_SOCKET ==> answer == fd && 0 <= fd && fd !in owner
  {
    if fd < 0 || fd in owner then INVALID_SOCKET else fd
  }

  /** Puts `s` at `a`, and registers it when it has a descriptor. */
  function Opened(w: World, a: Addr, s: Socket): World {
    var v := w.(sockets := w.sockets[a := s]);
    if s.fd == INVALID_SOCKET then v
    else
      var v := v.(owner := v.owner[s.fd := a]);
      Register(if s.saved.Some? then v.(reopened := v.reopened + {a}) else v, a)
  }

  function CreateSocket(w: World, a: Addr, fd: Fd, udp: bool): World
    requires a in w.sockets
  {
    var w := CloseSocket(w, a);
    var s := w.sockets[a].(fd := OsFd(w.owner, fd));
    Opened(w, a, if udp then s.(enabled := DE_READ | DE_WRITE) else s)
  }

  /** What a signal handler may do. A request that makes no sense is ignored:
      a new object at an address in use, any other at an address not in use. */
  datatype HandlerOp =
    | New(a: Addr)
    | Wrap(a: Addr, fd: Fd)
    | Enable(a: Addr, ff: Events)
    | Close(a: Addr)
    | Create(a: Addr, fd: Fd, udp: bool)
    | Delete(a: Addr)

  predicate Sensible(sockets: map<Addr, Socket>, owner: map<Fd, Addr>, op: HandlerOp) {
    match op
    case New(a) => a !in sockets
    case Wrap(a, fd) => a !in sockets && OsFd(owner, fd) != INVALID_SOCKET
    // A dispatcher is not deleted while its own OnEvent runs.
    case Delete(a) => a in sockets && sockets[a].saved.None?
    case _ => op.a in sockets
  }

  function Handle(w: World, op: HandlerOp): World {
    if !Sensible(w.sockets, w.owner, op) then w
    else match op
      case New(a) => Opened(w, a, Socket(INVALID_SOCKET, 0, None))
      case Wrap(a, fd) => Opened(w, a, Socket(fd, DE_READ | DE_WRITE, None))
      case Enable(a, ff) => SetEvents(w, a, w.sockets[a].enabled | ff)
      case Close(a) => CloseSocket(w, a)
      case Create(a, fd, udp) => CreateSocket(w, a, fd, udp)
      case Delete(a) => var w := CloseSocket(w, a); w.(sockets := w.sockets - {a})
  }

  function HandleAll(w: World, ops: seq<HandlerOp>): World
    decreases |ops|
  {
    if ops == [] then w else HandleAll(Handle(w, ops[0]), ops[1..])
  }

  // ---------- OnEvent ----------

  /** What the handlers do when each kind of event is signaled. */
  datatype Handlers = Handlers(connect: seq<HandlerOp>, accept: seq<HandlerOp>, read: seq<HandlerOp>,
                               write: seq<HandlerOp>, close: seq<HandlerOp>)

  function StartBatch(w: World, a: Addr): World
    requires a in w.sockets
  {
    w.(sockets := w.sockets[a := w.sockets[a].(saved := Some(w.sockets[a].enabled))])
  }

  /** Signals one kind of event, with its interest off until a handler turns it on. */
  function Signal(w: World, a: Addr, ff: Events, bit: Events, ops: seq<HandlerOp>): World
    requires a in w.sockets
  {
    if ff & bit == 0 then w else HandleAll(Announced(w, a, bit, ops), ops)
  }

  /** The event is disabled, and signaled. */
  function Announced(w: World, a: Addr, bit: Events, ops: seq<HandlerOp>): World
    requires a in w.sockets
  {
    var was := w.sockets[a].enabled;
    var events := if bit == DE_CLOSE then 0 else was & !bit;
    SetEvents(w, a, events).(signals := w.signals + [Signaling(a, bit, was, events, ops)])
  }

  function FinishBatch(w: World, a: Addr): World
    requires a in w.sockets && w.sockets[a].saved.Some?
  {
    var s := w.sockets[a];
    var w := w.(sockets := w.sockets[a := s.(saved := None)], reopened := w.reopened - {a});
    if GetEpollEvents(s.enabled) != GetEpollEvents(s.saved.value) && a in w.byAddr
    then w.(told := w.told[a := GetEpollEvents(s.enabled)]) else w
  }

  /** The world just before the batch of `OnEvent` is finished. */
  function Signaled(w: World, a: Addr, ff: Events, h: Handlers): (r: World)
    requires a in w.sockets && w.sockets[a].saved.None?
    ensures Batching(r, a)
  {
    SignalAll(StartBatch(w, a), a, ff, h)
  }

  function SignalAll(w: World, a: Addr, ff: Events, h: Handlers): (r: World)
    requires Batching(w, a)
    ensures Batching(r, a)
  {
    var w := (SignalKeepsBatch(w, a, ff, DE_CONNECT, h.connect, a); Signal(w, a, ff, DE_CONNECT, h.connect));
    var w := (SignalKeepsBatch(w, a, ff, DE_ACCEPT, h.accept, a); Signal(w, a, ff, DE_ACCEPT, h.accept));
    var w := (SignalKeepsBatch(w, a, ff, DE_READ, h.read, a); Signal(w, a, ff, DE_READ, h.read));
    var w := (SignalKeepsBatch(w, a, ff, DE_WRITE, h.write, a); Signal(w, a, ff, DE_WRITE, h.write));
    SignalKeepsBatch(w, a, ff, DE_CLOSE, h.close, a);
    Signal(w, a, ff, DE_CLOSE, h.close)
  }

  function OnEvent(w: World, a: Addr, ff: Events, h: Handlers): World
    requires a in w.sockets && w.sockets[a].saved.None?
  {
    FinishBatch(Signaled(w, a, ff, h), a)
  }

  ghost predicate Batching(w: World, a: Addr) {
    a in w.sockets && w.sockets[a].saved.Some?
  }

  lemma ClosedSockets(w: World, b: Addr)
    requires b in w.sockets
    ensures var r := CloseSocket(w, b).sockets;
            b in r && r[b].saved.Some? == w.sockets[b].saved.Some? && r == w.sockets[b := r[b]]
  {
  }

  lemma OpenedSockets(w: World, b: Addr, s: Socket)
    ensures Opened(w, b, s).sockets == w.sockets[b := s]
  {
  }

  lemma CreatedSockets(w: World, b: Addr, fd: Fd, udp: bool)
    requires b in w.sockets
    ensures var r := CreateSocket(w, b, fd, udp).sockets;
            b in r && r[b].saved.Some? == w.sockets[b].saved.Some? && r == w.sockets[b := r[b]]
  {
    ClosedSockets(w, b);
    var v := CloseSocket(w, b);
    var s := v.sockets[b].(fd := OsFd(v.owner, fd));
    OpenedSockets(v, b, if udp then s.(enabled := DE_READ | DE_WRITE) else s);
  }

  lemma DeletedSockets(w: World, b: Addr)
    requires b in w.sockets && w.sockets[b].saved.None?
    ensures Handle(w, Delete(b)).sockets == w.sockets - {b}
  {
    ClosedSockets(w, b);
  }

  /** No handler starts or ends a batch. */
  lemma OpKeepsBatch(w: World, op: HandlerOp, a: Addr)
    ensures Batching(Handle(w, op), a) <==> Batching(w, a)
  {
    if Sensible(w.sockets, w.owner, op) {
      match op
      case New(b) => OpenedSockets(w, b, Socket(INVALID_SOCKET, 0, None));
      case Wrap(b, fd) => OpenedSockets(w, b, Socket(fd, DE_READ | DE_WRITE, None));
      case Enable(b, ff) => SetEventsKeepsBatch(w, b, w.sockets[b].enabled | ff, a);
      case Close(b) => ClosedSockets(w, b);
      case Create(b, fd, udp) => CreatedSockets(w, b, fd, udp);
      case Delete(b) => DeletedSockets(w, b);
    }
  }

  lemma {:induction false} OpsKeepBatch(w: World, ops: seq<HandlerOp>, a: Addr)
    ensures Batching(HandleAll(w, ops), a) <==> Batching(w, a)
    decreases |ops|
  {
    if ops != [] {
      OpKeepsBatch(w, ops[0], a);
      OpsKeepBatch(Handle(w, ops[0]), ops[1..], a);
    }
  }

  lemma SetEventsKeepsBatch(w: World, a: Addr, events: Events, b: Addr)
    requires a in w.sockets
    ensures Batching(SetEvents(w, a, events), b) <==> Batching(w, b)
  {
  }

  lemma AnnouncedKeepsBatch(w: World, a: Addr, bit: Events, ops: seq<HandlerOp>, b: Addr)
    requires a in w.sockets
    ensures Batching(Announced(w, a, bit, ops), b) <==> Batching(w, b)
  {
    SetEventsKeepsBatch(w, a, if bit == DE_CLOSE then 0 else w.sockets[a].enabled & !bit, b);
  }

  lemma SignalKeepsBatch(w: World, a: Addr, ff: Events, bit: Events, ops: seq<HandlerOp>, b: Addr)
    requires a in w.sockets
    ensures Batching(Signal(w, a, ff, bit, ops), b) <==> Batching(w, b)
  {
    if ff & bit != 0 {
      AnnouncedKeepsBatch(w, a, bit, ops, b);
      OpsKeepBatch(Announced(w, a, bit, ops), ops, b);
    }
  }

  // ---------- A pass over polled events ----------

  /** One event of `epoll_wait`, the results of the system calls made about it,
      and what the handlers do if it is dispatched. */
  datatype Polled = Polled(key: Key, readable: bool, writable: bool, error: bool, errcode: bool, closed: bool,
                           h: Handlers)

  datatype Dispatched = Dispatched(key: Key, a: Addr, ff: Events)

  /** The flags handed to OnEvent; an error is only looked for when one was polled. */
  function EventFlags(requested: Events, p: Polled): Events {
    var errcode := p.error && p.errcode;
    (if !p.readable then 0
     else if errcode || p.closed then DE_CLOSE
     else if requested & DE_ACCEPT != 0 then DE_ACCEPT
     else DE_READ)
    | (if !p.writable then 0
       else if requested & DE_CONNECT == 0 then DE_WRITE
       else if !errcode then DE_CONNECT
       else 0)
    | (if errcode then DE_CLOSE else 0)
  }

  predicate NoBatch(w: World) {
    forall a :: a in w.sockets ==> w.sockets[a].saved.None?
  }
}
