/** What a thread's message queue does, stated on plain lists: a FIFO of ready
    messages, a schedule sorted by run time and message number, a peek slot and a
    quit flag (rtc_base/thread.cc). The heap-based queue refines these functions;
    the queue's promises are proved about them. */
module QueueSpec {
  import opened Basics
  import opened DelayedMessages

  const FOREVER: int := -1
  const NUM_LIMIT: nat := 0x1_0000_0000

  /** A message handed to the queue, and when. */
  datatype Delivery = Delivery(m: Message, at: int)

  /** History: where every message that was ever posted has gone, and the undelayed
      ones in the order in which their posts took the lock. */
  datatype Ledger = Ledger(posted: multiset<Message>, delivered: seq<Delivery>, disposed: multiset<Message>,
                           cleared: multiset<Message>, refused: multiset<Message>, pushed: seq<Message>)

  /** What a call of `Post` or `DoDelayPost` is about to put into the queue. */
  datatype Posting = Ready(m: Message) | Delayed(delay: int, runAt: int, m: Message)

  /** `passed` are the posts that have found the quit flag clear and have not yet
      taken the lock. `clock` is history: the latest reading of the clock by `Get`. */
  datatype QueueState = QueueState(ready: seq<Message>, schedule: seq<DelayedMessage>, peek: Option<Message>,
                                   stopped: bool, nextNum: nat, passed: seq<Posting>, clock: int, ledger: Ledger)

  /** What other threads, or the destructors of disposed data, may do, one atomic
      step at a time: a post tests the flag, and in a later step, after whatever
      else, takes the lock and enters the queue. */
  datatype Op =
    | Test(p: Posting)
    | Push(k: nat)
    | Clear(handler: nat, id: nat)
    | Quit
    | Restart

  /** A stretch during which `Get` does not hold the lock. When it is a socket
      server wait, `waitOk` is its result and `now` the clock read after it. */
  datatype Gap = Gap(ops: seq<Op>, waitOk: bool, now: int)

  // ---------- The operations ----------

  /** The posting with the run time it is made with noted on the message. */
  function Stamped(p: Posting): Posting {
    match p
    case Ready(m) => Ready(m.(due := None))
    case Delayed(delay, runAt, m) => Delayed(delay, runAt, m.(due := Some(runAt)))
  }

  /** The test of the quit flag, without the lock. */
  function TestFlag(q: QueueState, p: Posting): QueueState {
    var p := Stamped(p);
    var l := q.ledger.(posted := q.ledger.posted + multiset{p.m});
    if q.stopped then q.(ledger := l.(refused := l.refused + multiset{p.m}))
    else q.(passed := q.passed + [p], ledger := l)
  }

  /** The number wraps around at 32 bits. */
  function NextNum(n: nat): (next: nat)
    ensures n < NUM_LIMIT ==> next < NUM_LIMIT && (next == n + 1 || next == n + 1 - NUM_LIMIT)
  {
    if n + 1 == NUM_LIMIT then 0 else n + 1
  }

  /** The part under the lock. */
  function Enter(q: QueueState, p: Posting): QueueState {
    match p
    case Ready(m) => q.(ready := q.ready + [m])
    case Delayed(delay, runAt, m) =>
      q.(schedule := InsertByTime(DelayedMessage(delay, runAt, q.nextNum, m), q.schedule),
         nextNum := NextNum(q.nextNum))
  }

  /** The `k`th of the posts that have passed the test takes the lock. */
  function PushPassed(q: QueueState, k: nat): QueueState {
    if k >= |q.passed| then q else Enter(Taken(q, k), q.passed[k])
  }

  function Taken(q: QueueState, k: nat): QueueState
    requires k < |q.passed|
  {
    var order := if q.passed[k].Ready? then [q.passed[k].m] else [];
    q.(passed := q.passed[..k] + q.passed[k + 1..], ledger := q.ledger.(pushed := q.ledger.pushed + order))
  }

  function KeepReady(s: seq<Message>, handler: nat, id: nat): seq<Message> {
    if s == [] then []
    else if s[0].Match(handler, id) then KeepReady(s[1..], handler, id)
    else [s[0]] + KeepReady(s[1..], handler, id)
  }

  function DropReady(s: seq<Message>, handler: nat, id: nat): seq<Message> {
    if s == [] then []
    else if s[0].Match(handler, id) then [s[0]] + DropReady(s[1..], handler, id)
    else DropReady(s[1..], handler, id)
  }

  predicate PeekMatches(q: QueueState, handler: nat, id: nat) {
    q.peek.Some? && q.peek.value.Match(handler, id)
  }

  /** The messages of a schedule, with and without a filter. */
  function Bag(s: seq<DelayedMessage>): multiset<Message> {
    if s == [] then multiset{} else multiset{s[0].msg} + Bag(s[1..])
  }

  function DropBag(s: seq<DelayedMessage>, handler: nat, id: nat): multiset<Message> {
    if s == [] then multiset{}
    else if s[0].msg.Match(handler, id) then multiset{s[0].msg} + DropBag(s[1..], handler, id)
    else DropBag(s[1..], handler, id)
  }

  function Removed(q: QueueState, handler: nat, id: nat): multiset<Message> {
    (if PeekMatches(q, handler, id) then multiset{q.peek.value} else multiset{})
    + multiset(DropReady(q.ready, handler, id))
    + DropBag(q.schedule, handler, id)
  }

  function ClearMatching(q: QueueState, handler: nat, id: nat): QueueState {
    q.(peek := if PeekMatches(q, handler, id) then None else q.peek,
       ready := KeepReady(q.ready, handler, id),
       schedule := Keep(q.schedule, handler, id),
       ledger := q.ledger.(cleared := q.ledger.cleared + Removed(q, handler, id)))
  }

  function DoOp(q: QueueState, op: Op): QueueState {
    match op
    case Test(p) => TestFlag(q, p)
    case Push(k) => PushPassed(q, k)
    case Clear(handler, id) => ClearMatching(q, handler, id)
    case Quit => q.(stopped := true)
    case Restart => q.(stopped := false)
  }

  function DoOps(q: QueueState, ops: seq<Op>): QueueState
    decreases |ops|
  {
    if ops == [] then q else DoOps(DoOp(q, ops[0]), ops[1..])
  }

  /** Moves the messages that are due at `now` behind the ready ones. */
  function Promote(q: QueueState, now: int): QueueState
    decreases |q.schedule|
  {
    if q.schedule != [] && q.schedule[0].runTime <= now
    then Promote(q.(ready := q.ready + [q.schedule[0].msg], schedule := q.schedule[1..]), now)
    else q
  }

  function UntilNext(q: QueueState, now: int): int {
    if q.schedule == [] then FOREVER else q.schedule[0].runTime - now
  }

  /** The timeout handed to the socket server. */
  function WaitTime(wait: int, elapsed: int, next: int): int {
    if wait == FOREVER then next
    else
      var left := if wait - elapsed > 0 then wait - elapsed else 0;
      if next != FOREVER && next < left then next else left
  }

  /** `Unfinished`: the gaps given so far do not take `Get` to its return. */
  datatype Outcome = Got(m: Message) | NoMessage | Unfinished

  /** `used` counts the gaps consumed; `waits` are the timeouts waited with. */
  datatype Fetched = Fetched(q: QueueState, outcome: Outcome, waits: seq<int>, used: nat)

  /** `first` is the first ready message that is not a dispose message, NoMessage
      when there is none; the dispose messages before it are gone. */
  datatype Drained = Drained(q: QueueState, first: Outcome, used: nat)

  function Drain(q: QueueState, env: seq<Gap>): (d: Drained)
    ensures d.used <= |env|
    decreases |env|
  {
    if q.ready == [] then Drained(q, NoMessage, 0)
    else
      var m, q := q.ready[0], q.(ready := q.ready[1..]);
      if m.id != MQID_DISPOSE then Drained(q, Got(m), 0)
      else if env == [] then Drained(Dispose(q, m), Unfinished, 0)
      else
        var d := Drain(DoOps(Dispose(q, m), env[0].ops), env[1..]);
        d.(used := d.used + 1)
  }

  function Dispose(q: QueueState, m: Message): QueueState {
    q.(ledger := q.ledger.(disposed := q.ledger.disposed + multiset{m}))
  }

  datatype Round = Done(r: Fetched) | Again(q: QueueState, now: int, wait: int, used: nat)

  /** One round of `Get`: promote, take, and otherwise wait. */
  function GetRound(q: QueueState, wait: int, start: int, now: int, env: seq<Gap>): (r: Round)
    ensures r.Again? ==> 2 <= r.used <= |env|
  {
    var q := Promote(q.(clock := now), now);
    var w := WaitTime(wait, now - start, UntilNext(q, now));
    var d := Drain(q, env);
    if d.first != NoMessage then Done(Fetched(d.q, d.first, [], d.used))
    else AfterDrain(d.q, wait, start, w, d.used, env)
  }

  /** `Get` with nothing ready: the quit flag, then the wait with timeout `w`. */
  function AfterDrain(q: QueueState, wait: int, start: int, w: int, used: nat, env: seq<Gap>): (r: Round)
    requires used <= |env|
    ensures r.Again? ==> 2 <= r.used <= |env|
  {
    if used == |env| then Done(Fetched(q, Unfinished, [], used))
    else
      var q := DoOps(q, env[used].ops);
      if q.stopped then Done(Fetched(q, NoMessage, [], used + 1))
      else if used + 1 == |env| then Done(Fetched(q, Unfinished, [w], used + 1))
      else AfterWait(DoOps(q, env[used + 1].ops), env[used + 1], wait, start, w, used + 2)
  }

  /** What follows from the wait `gap`, which ends with the queue at `q`. */
  function AfterWait(q: QueueState, gap: Gap, wait: int, start: int, w: int, used: nat): (r: Round)
    ensures r.Again? ==> r.used == used
  {
    if !gap.waitOk then Done(Fetched(q, NoMessage, [w], used))
    else if wait != FOREVER && gap.now - start >= wait
    then Done(Fetched(q.(clock := gap.now), NoMessage, [w], used))
    else Again(q, gap.now, w, used)
  }

  function After(waits: seq<int>, used: nat, r: Fetched): Fetched {
    r.(waits := waits + r.waits, used := used + r.used)
  }

  /** `Get` with an empty peek slot. */
  function Fetch(q: QueueState, wait: int, start: int, now: int, env: seq<Gap>): Fetched
    decreases |env|
  {
    match GetRound(q, wait, start, now, env)
    case Done(r) => r
    case Again(q, now, w, used) => After([w], used, Fetch(q, wait, start, now, env[used..]))
  }

  function Deliver(r: Fetched): Fetched {
    if r.outcome.Got? then r.(q := HandOver(r.q, r.outcome.m)) else r
  }

  function HandOver(q: QueueState, m: Message): QueueState {
    q.(ledger := q.ledger.(delivered := q.ledger.delivered + [Delivery(m, q.clock)]))
  }

  function Get(q: QueueState, wait: int, now: int, env: seq<Gap>): Fetched {
    if q.peek.Some? then Deliver(Fetched(q.(peek := None), Got(q.peek.value), [], 0))
    else Deliver(Fetch(q, wait, now, now, env))
  }

  function Peek(q: QueueState, wait: int, now: int, env: seq<Gap>): Fetched {
    if q.peek.Some? then Fetched(q, Got(q.peek.value), [], 0)
    else
      var r := Fetch(q, wait, now, now, env);
      if r.outcome.Got? then r.(q := r.q.(peek := Some(r.outcome.m))) else r
  }

  // ---------- What every run keeps ----------

  function Msgs(s: seq<DelayedMessage>): seq<Message> {
    if s == [] then [] else [s[0].msg] + Msgs(s[1..])
  }

  function PostedMsgs(s: seq<Posting>): (r: seq<Message>)
    ensures |r| == |s|
  {
    seq(|s|, i requires 0 <= i < |s| => s[i].m)
  }

  function DeliveredMsgs(s: seq<Delivery>): (r: seq<Message>)
    ensures |r| == |s|
  {
    seq(|s|, i requires 0 <= i < |s| => s[i].m)
  }

  /** How often `m` is in the queue. */
  function Pending(q: QueueState, m: Message): nat {
    multiset(q.ready)[m] + Bag(q.schedule)[m] + (if q.peek == Some(m) then 1 else 0)
  }

  /** How often `m` is on its way into the queue. */
  function OnItsWay(q: QueueState, m: Message): nat {
    multiset(PostedMsgs(q.passed))[m]
  }

  function Accounted(q: QueueState, held: multiset<Message>, m: Message): nat {
    Pending(q, m) + OnItsWay(q, m) + held[m]
    + multiset(DeliveredMsgs(q.ledger.delivered))[m] + q.ledger.disposed[m] + q.ledger.cleared[m] + q.ledger.refused[m]
  }

  /** Every posted message is in exactly one place; `held` are those a call in
      progress has taken out of the queue and not yet handed on. */
  ghost predicate Conserved(q: QueueState, held: multiset<Message>) {
    forall m :: Accounted(q, held, m) == q.ledger.posted[m]
  }

  predicate Due(m: Message, clock: int) {
    m.due.Some? ==> m.due.value <= clock
  }

  /** Nothing past the schedule was let through before its run time, up to and
      including what was delivered. */
  ghost predicate NeverEarly(q: QueueState) {
    && (forall p :: p in q.passed ==> p == Stamped(p))
    && (forall x :: x in q.schedule ==> x.msg.due == Some(x.runTime))
    && (forall m :: m in q.ready ==> Due(m, q.clock))
    && (q.peek.Some? ==> Due(q.peek.value, q.clock))
    && (forall d :: d in q.ledger.delivered ==> Due(d.m, d.at) && d.at <= q.clock)
  }

  /** Dispose messages are not for the caller, and nothing else is disposed of. */
  ghost predicate NoneToDispose(q: QueueState) {
    && (q.peek.Some? ==> q.peek.value.id != MQID_DISPOSE)
    && (forall d :: d in q.ledger.delivered ==> d.m.id != MQID_DISPOSE)
    && (forall m :: m in q.ledger.disposed ==> m.id == MQID_DISPOSE)
  }

  ghost predicate Good(q: QueueState, held: multiset<Message>) {
    Conserved(q, held) && NeverEarly(q) && NoneToDispose(q) && Numbered(q.schedule, q.nextNum) && q.nextNum < NUM_LIMIT
  }

  function OpsIn(env: seq<Gap>): nat {
    if env == [] then 0 else |env[0].ops| + OpsIn(env[1..])
  }

  /** Fewer than 2^32 delayed posts: the debug check that the counter never wraps. */
  predicate Room(q: QueueState, n: nat) {
    q.nextNum + n < NUM_LIMIT
  }

  /** Clock readings never go back. */
  predicate Monotone(now: int, env: seq<Gap>)
    decreases |env|
  {
    env == [] || (now <= env[0].now && Monotone(env[0].now, env[1..]))
  }
}
