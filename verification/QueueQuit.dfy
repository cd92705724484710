/** What quitting promises (rtc_base/thread.h): that nothing enters the queue any
    more, and that what is due is delivered before `Get` returns false; exactly
    when these hold, and what the code does when they do not. */
module QueueQuit {
  import opened Basics
  import opened DelayedMessages
  import opened QueueSpec
  import opened QueueRuns

  // ---------- Nothing enters but what was on its way ----------

  predicate NoRestart(ops: seq<Op>) {
    forall op :: op in ops ==> !op.Restart?
  }

  predicate SetsFlag(op: Op) {
    op.Quit? || op.Restart?
  }

  /** The queue is quitting if the last to set the flag was a Quit. */
  lemma {:induction false} LastFlagCounts(q: QueueState, ops: seq<Op>, k: nat)
    requires k < |ops| && SetsFlag(ops[k]) && forall i :: k < i < |ops| ==> !SetsFlag(ops[i])
    ensures DoOps(q, ops).stopped <==> ops[k].Quit?
    decreases |ops|
  {
    if k > 0 {
      LastFlagCounts(DoOp(q, ops[0]), ops[1..], k - 1);
    } else {
      FlagStays(DoOp(q, ops[0]), ops[1..]);
    }
  }

  lemma {:induction false} FlagStays(q: QueueState, ops: seq<Op>)
    requires forall i :: 0 <= i < |ops| ==> !SetsFlag(ops[i])
    ensures DoOps(q, ops).stopped == q.stopped
    decreases |ops|
  {
    if ops != [] {
      FlagStays(DoOp(q, ops[0]), ops[1..]);
    }
  }

  /** Messages in the queue or past the flag test. */
  function Inside(q: QueueState, m: Message): nat {
    Pending(q, m) + OnItsWay(q, m)
  }

  /** Taking the lock moves a post from its way into the queue. */
  lemma PushMovesIn(q: QueueState, k: nat)
    ensures var r := PushPassed(q, k);
            r.stopped == q.stopped && forall m :: Inside(r, m) == Inside(q, m) && OnItsWay(r, m) <= OnItsWay(q, m)
  {
    if k < |q.passed| {
      var p := q.passed[k];
      WithoutPosting(q.passed, k);
      EnterAdds(Taken(q, k), p);
    }
  }

  lemma EnterAdds(q: QueueState, p: Posting)
    ensures forall m :: Pending(Enter(q, p), m) == Pending(q, m) + if m == p.m then 1 else 0
  {
    if p.Delayed? {
      InsertAddsMsg(DelayedMessage(p.delay, p.runAt, q.nextNum, p.m), q.schedule);
    }
  }

  lemma StepAfterQuit(q: QueueState, op: Op)
    requires q.stopped && !op.Restart?
    ensures var r := DoOp(q, op);
            && r.stopped && forall m :: Inside(r, m) <= Inside(q, m) && OnItsWay(r, m) <= OnItsWay(q, m)
  {
    match op
    case Test(p) =>
    case Push(k) =>
      PushMovesIn(q, k);
    case Clear(handler, id) =>
      forall m ensures Inside(DoOp(q, op), m) <= Inside(q, m) {
        ClearCounts(q, handler, id, m);
      }
    case Quit =>
  }

  /** Once quitting, all that enters the queue had found the flag clear before: the
      messages inside only get fewer. */
  lemma {:induction false} OnlyPassedEntersAfterQuit(q: QueueState, ops: seq<Op>)
    requires q.stopped && NoRestart(ops)
    ensures var r := DoOps(q, ops);
            && r.stopped && forall m :: Inside(r, m) <= Inside(q, m) && OnItsWay(r, m) <= OnItsWay(q, m)
    ensures q.passed == [] ==> forall m :: Pending(DoOps(q, ops), m) <= Pending(q, m)
    decreases |ops|
  {
    if ops != [] {
      StepAfterQuit(q, ops[0]);
      OnlyPassedEntersAfterQuit(DoOp(q, ops[0]), ops[1..]);
    }
    if q.passed == [] {
      forall m ensures Pending(DoOps(q, ops), m) <= Pending(q, m) {
        assert OnItsWay(q, m) == 0;
        assert Inside(DoOps(q, ops), m) <= Inside(q, m);
      }
    }
  }

  /** And what has passed the test does enter, quitting or not. */
  lemma PassedEntersAfterQuit(m: Message)
    requires m.due == None
    ensures DoOps(NEW_QUEUE, [Test(Ready(m)), Quit, Push(0)]).ready == [m]
  {
    var tested := TestFlag(NEW_QUEUE, Ready(m));
    assert tested.passed == [] + [Ready(m)] == [Ready(m)];
    var stopped := tested.(stopped := true);
    assert [Test(Ready(m)), Quit, Push(0)][1..] == [Quit, Push(0)] && [Quit, Push(0)][1..] == [Push(0)];
    assert DoOps(NEW_QUEUE, [Test(Ready(m)), Quit, Push(0)]) == DoOps(tested, [Quit, Push(0)])
           == DoOps(stopped, [Push(0)]);
    assert [Push(0)][1..] == [];
    assert DoOps(stopped, [Push(0)]) == PushPassed(stopped, 0);
    assert [] + [m] == [m];
  }

  // ---------- What a sequence of steps leaves behind ----------

  predicate Survives(m: Message, ops: seq<Op>) {
    forall op :: op in ops ==> !(op.Clear? && m.Match(op.handler, op.id))
  }

  /** What the step puts into the queue. */
  function Entering(q: QueueState, op: Op): Option<Posting> {
    if op.Push? && op.k < |q.passed| then Some(q.passed[op.k]) else None
  }

  /** In the course of `ops` some post of the wanted kind enters the queue that no
      later Clear matches. */
  ghost predicate Slips(q: QueueState, ops: seq<Op>, wanted: Posting -> bool)
    decreases |ops|
  {
    && ops != []
    && (|| (Entering(q, ops[0]).Some? && wanted(Entering(q, ops[0]).value)
            && Survives(Entering(q, ops[0]).value.m, ops[1..]))
        || Slips(DoOp(q, ops[0]), ops[1..], wanted))
  }

  ghost predicate SomeReady(q: QueueState, ops: seq<Op>) {
    exists m :: m in q.ready && Survives(m, ops)
  }

  predicate IsReady(p: Posting) {
    p.Ready?
  }

  lemma {:induction false} KeepReadyMembers(s: seq<Message>, handler: nat, id: nat)
    ensures forall m :: m in KeepReady(s, handler, id) <==> m in s && !m.Match(handler, id)
  {
    if s != [] {
      KeepReadyMembers(s[1..], handler, id);
      assert s == [s[0]] + s[1..];
    }
  }

  lemma {:induction false} KeepMembersOf(s: seq<DelayedMessage>, handler: nat, id: nat)
    ensures forall x :: x in Keep(s, handler, id) <==> x in s && !x.msg.Match(handler, id)
  {
    if s != [] {
      KeepMembersOf(s[1..], handler, id);
      assert s == [s[0]] + s[1..];
    }
  }

  /** A message is ready in the end exactly if it was and survives, or slipped in. */
  lemma {:induction false} ReadyLeft(q: QueueState, ops: seq<Op>)
    ensures DoOps(q, ops).ready != [] <==> SomeReady(q, ops) || Slips(q, ops, IsReady)
    decreases |ops|
  {
    if ops == [] {
      assert q.ready != [] ==> q.ready[0] in q.ready && Survives(q.ready[0], ops);
    } else {
      var r, rest := DoOp(q, ops[0]), ops[1..];
      ReadyLeft(r, rest);
      assert ops == [ops[0]] + rest;
      ReadyStep(q, ops[0], rest);
    }
  }

  lemma ReadyStep(q: QueueState, op: Op, rest: seq<Op>)
    ensures var e := Entering(q, op);
            SomeReady(DoOp(q, op), rest) <==>
            SomeReady(q, [op] + rest) || (e.Some? && e.value.Ready? && Survives(e.value.m, rest))
  {
    var r, e := DoOp(q, op), Entering(q, op);
    if op.Clear? {
      KeepReadyMembers(q.ready, op.handler, op.id);
    }
    forall m ensures m in r.ready && Survives(m, rest) <==>
      (m in q.ready && Survives(m, [op] + rest)) || (e.Some? && e.value == Ready(m) && Survives(m, rest))
    {
    }
  }

  ghost predicate SomeExpired(q: QueueState, ops: seq<Op>, clock: int) {
    exists x :: x in q.schedule && x.runTime <= clock && Survives(x.msg, ops)
  }

  function HasExpired(clock: int): Posting -> bool {
    (p: Posting) => p.Delayed? && p.runAt <= clock
  }

  /** Likewise for the messages in the schedule whose time has come. */
  lemma {:induction false} ExpiredLeft(q: QueueState, ops: seq<Op>, clock: int)
    ensures SomeExpired(DoOps(q, ops), [], clock) <==> SomeExpired(q, ops, clock) || Slips(q, ops, HasExpired(clock))
    decreases |ops|
  {
    if ops != [] {
      var rest := ops[1..];
      ExpiredLeft(DoOp(q, ops[0]), rest, clock);
      assert ops == [ops[0]] + rest;
      ExpiredStep(q, ops[0], rest, clock);
    }
  }

  lemma ExpiredStep(q: QueueState, op: Op, rest: seq<Op>, clock: int)
    ensures var e := Entering(q, op);
            SomeExpired(DoOp(q, op), rest, clock) <==>
            SomeExpired(q, [op] + rest, clock) || (e.Some? && HasExpired(clock)(e.value) && Survives(e.value.m, rest))
  {
    var r, e := DoOp(q, op), Entering(q, op);
    if op.Clear? {
      KeepMembersOf(q.schedule, op.handler, op.id);
    }
    if e.Some? && e.value.Delayed? {
      var x := DelayedMessage(e.value.delay, e.value.runAt, q.nextNum, e.value.m);
      InsertMembers(x, q.schedule);
      assert x in r.schedule;
    }
    forall x ensures x in r.schedule && Survives(x.msg, rest) ==>
      (x in q.schedule && Survives(x.msg, [op] + rest))
      || (e.Some? && e.value.Delayed? && e.value.runAt == x.runTime && e.value.m == x.msg)
    {
    }
  }

  // ---------- The last round of a Get ----------

  /** The queue, the clock and the gaps with which the last round begins. */
  function LastRound(q: QueueState, wait: int, start: int, now: int, env: seq<Gap>): (QueueState, int, seq<Gap>)
    decreases |env|
  {
    match GetRound(q, wait, start, now, env)
    case Done(r) => (q, now, env)
    case Again(p, later, w, used) => LastRound(p, wait, start, later, env[used..])
  }

  function OpsOf(env: seq<Gap>): seq<Op> {
    if env == [] then [] else env[0].ops + OpsOf(env[1..])
  }

  /** A message that the guarantee is about at the time `at` is still in the queue:
      a ready one, or a delayed one whose time has come. */
  ghost predicate Undelivered(q: QueueState, at: int) {
    q.ready != [] || exists x :: x in q.schedule && x.runTime <= at
  }

  /** What the ready list and the history have no part in. */
  predicate SameSide(p: QueueState, q: QueueState) {
    p.schedule == q.schedule && p.stopped == q.stopped && p.nextNum == q.nextNum && p.passed == q.passed
  }

  lemma {:induction false} OpsKeepSide(p: QueueState, q: QueueState, ops: seq<Op>)
    requires SameSide(p, q)
    ensures SameSide(DoOps(p, ops), DoOps(q, ops)) && DoOps(p, ops).clock == p.clock
    decreases |ops|
  {
    if ops != [] {
      OpsKeepSide(DoOp(p, ops[0]), DoOp(q, ops[0]), ops[1..]);
    }
  }

  /** Draining the ready list, with its gaps, does to the rest of the queue what
      the gaps do. */
  lemma {:induction false} DrainSide(p: QueueState, q: QueueState, env: seq<Gap>)
    requires SameSide(p, q)
    ensures var d := Drain(p, env);
            && SameSide(d.q, DoOps(q, OpsOf(env[..d.used]))) && d.q.clock == p.clock
            && (d.first == NoMessage ==> d.q.ready == [])
    decreases |env|
  {
    if p.ready != [] && p.ready[0].id == MQID_DISPOSE && env != [] {
      var p1 := Dispose(p.(ready := p.ready[1..]), p.ready[0]);
      OpsKeepSide(p1, q, env[0].ops);
      DrainSide(DoOps(p1, env[0].ops), DoOps(q, env[0].ops), env[1..]);
      var d := Drain(DoOps(p1, env[0].ops), env[1..]);
      assert env[..d.used + 1][1..] == env[1..][..d.used];
      OpsInParts(q, env[0].ops, OpsOf(env[1..][..d.used]));
    }
  }

  lemma NothingDueAfterScan(q: QueueState, now: int)
    requires Sorted(q.schedule)
    ensures forall x :: x in Promote(q, now).schedule ==> now < x.runTime
  {
    var k := PromoteMovesDue(q, now);
    forall x | x in q.schedule[k..] ensures now < x.runTime {
      var i :| k <= i < |q.schedule| && q.schedule[i] == x;
    }
  }

  predicate WaitsSucceed(env: seq<Gap>) {
    forall g :: g in env ==> g.waitOk
  }

  /** The last round, begun at `now` and over after `used` gaps, has ended with its
      deadline: after its search came the flag and a wait that succeeded. */
  predicate ByDeadline(s: QueueState, now: int, env: seq<Gap>, used: nat) {
    var d := Drain(Promote(s.(clock := now), now), env);
    used == d.used + 2 <= |env| && env[used - 1].waitOk
  }

  /** The clock as it was last read: when the deadline is tested, it has been read
      again after the wait, and no scan follows. */
  function LastReading(s: QueueState, now: int, env: seq<Gap>, used: nat): int {
    if ByDeadline(s, now, env, used) then env[used - 1].now else now
  }

  /** A message scheduled when the last round began comes due between its scan, at
      `now`, and the time `at`, and no Clear takes it out. */
  ghost predicate ComesDue(s: QueueState, ops: seq<Op>, now: int, at: int) {
    exists x :: x in s.schedule && now < x.runTime <= at && Survives(x.msg, ops)
  }

  /** What the last round of a `Get` that returned false after `used` gaps leaves
      undelivered: the ready posts that slip in after its search has found nothing,
      and what is due at the time `at` of the delayed posts that slip in after its
      scan, and of the messages that the scan found not due. */
  ghost predicate LeavesBehind(s: QueueState, now: int, env: seq<Gap>, used: nat, at: int) {
    var p := Promote(s.(clock := now), now);
    var d := Drain(p, env);
    && d.used < used <= |env|
    && (|| Slips(d.q, OpsOf(env[d.used..used]), IsReady)
        || Slips(p, OpsOf(env[..used]), HasExpired(at))
        || ComesDue(s, OpsOf(env[..used]), now, at))
  }

  /** The messages that the scan leaves in the schedule. */
  lemma ScanLeaves(s: QueueState, ops: seq<Op>, now: int, at: int)
    requires Sorted(s.schedule)
    ensures SomeExpired(Promote(s, now), ops, at) <==> ComesDue(s, ops, now, at)
  {
    var k := PromoteMovesDue(s, now);
    forall x ensures x in s.schedule[k..] <==> x in s.schedule && now < x.runTime {
      if x in s.schedule && now < x.runTime {
        var i :| 0 <= i < |s.schedule| && s.schedule[i] == x;
        assert s.schedule[k..][i - k] == x;
      }
    }
  }

  lemma LastRoundLeaves(s: QueueState, wait: int, start: int, now: int, env: seq<Gap>, at: int)
    requires Sorted(s.schedule)
    requires var x := GetRound(s, wait, start, now, env); x.Done? && x.r.outcome == NoMessage
    ensures var r := GetRound(s, wait, start, now, env).r;
            && r.q.clock == LastReading(s, now, env, r.used)
            && (Undelivered(r.q, at) <==> LeavesBehind(s, now, env, r.used, at))
  {
    var p := Promote(s.(clock := now), now);
    var d := Drain(p, env);
    var r := GetRound(s, wait, start, now, env).r;
    var last, all := OpsOf(env[d.used..r.used]), OpsOf(env[..r.used]);
    RoundEnds(s, wait, start, now, env);
    PromoteKeepsClock(s.(clock := now), now);
    DrainSide(p, p, env);
    ReadyLeft(d.q, last);
    OpsKeepSide(d.q, DoOps(p, OpsOf(env[..d.used])), last);
    OpsOfParts(env[..r.used], d.used);
    assert env[..r.used][..d.used] == env[..d.used] && env[..r.used][d.used..] == env[d.used..r.used];
    OpsInParts(p, OpsOf(env[..d.used]), last);
    ScheduleLeft(s, now, all, at);
  }

  /** What is due of the schedule after a scan and the steps `ops` of other threads. */
  lemma ScheduleLeft(s: QueueState, now: int, ops: seq<Op>, at: int)
    requires Sorted(s.schedule)
    ensures var p := Promote(s.(clock := now), now);
            (exists x :: x in DoOps(p, ops).schedule && x.runTime <= at)
            <==> Slips(p, ops, HasExpired(at)) || ComesDue(s, ops, now, at)
  {
    var p := Promote(s.(clock := now), now);
    ScanLeaves(s.(clock := now), ops, now, at);
    ExpiredLeft(p, ops, at);
    assert SomeExpired(DoOps(p, ops), [], at) <==> exists x :: x in DoOps(p, ops).schedule && x.runTime <= at;
  }

  /** A round without a message ends with the flag or with the wait. */
  lemma RoundEnds(s: QueueState, wait: int, start: int, now: int, env: seq<Gap>)
    requires var x := GetRound(s, wait, start, now, env); x.Done? && x.r.outcome == NoMessage
    ensures var r := GetRound(s, wait, start, now, env).r;
            var d := Drain(Promote(s.(clock := now), now), env);
            && d.first == NoMessage && d.used < r.used <= |env|
            && r.q == DoOps(d.q, OpsOf(env[d.used..r.used])).(clock := r.q.clock)
            && r.q.clock == (if ByDeadline(s, now, env, r.used) then env[r.used - 1].now else d.q.clock)
            && (ByDeadline(s, now, env, r.used) ==> wait != FOREVER && env[r.used - 1].now - start >= wait)
            && (WaitsSucceed(env) ==> r.q.stopped || (wait != FOREVER && r.q.clock - start >= wait))
  {
    var p := Promote(s.(clock := now), now);
    var d := Drain(p, env);
    var k, w := d.used, WaitTime(wait, now - start, UntilNext(p, now));
    var r := AfterDrain(d.q, wait, start, w, k, env).r;
    AfterDrainEnds(d.q, wait, start, w, k, env);
    OpsOfOne(env, k);
    if r.used == k + 2 {
      assert env[k..k + 2][1..] == env[k + 1..k + 2] && env[k..k + 2][0] == env[k];
      OpsOfOne(env, k + 1);
      OpsInParts(d.q, env[k].ops, env[k + 1].ops);
      assert env[k + 1] in env;
    }
    OpsKeepSide(d.q, d.q, OpsOf(env[k..r.used]));
  }

  lemma AfterDrainEnds(q: QueueState, wait: int, start: int, w: int, k: nat, env: seq<Gap>)
    requires k <= |env|
    requires var x := AfterDrain(q, wait, start, w, k, env); x.Done? && x.r.outcome == NoMessage
    ensures var r := AfterDrain(q, wait, start, w, k, env).r;
            && k < r.used <= k + 2 && r.used <= |env|
            && (r.used == k + 1 ==> r.q == DoOps(q, env[k].ops) && r.q.stopped)
            && (r.used == k + 2 ==>
                  var p := DoOps(DoOps(q, env[k].ops), env[k + 1].ops);
                  && r.q == p.(clock := if env[k + 1].waitOk then env[k + 1].now else p.clock)
                  && (env[k + 1].waitOk ==> wait != FOREVER && env[k + 1].now - start >= wait))
  {
  }

  lemma OpsOfOne(env: seq<Gap>, k: nat)
    requires k < |env|
    ensures OpsOf(env[k..k + 1]) == env[k].ops
  {
    assert env[k..k + 1] == [env[k]] && [env[k]][1..] == [];
    assert env[k].ops + [] == env[k].ops;
  }

  lemma {:induction false} OpsOfParts(env: seq<Gap>, k: nat)
    requires k <= |env|
    ensures OpsOf(env) == OpsOf(env[..k]) + OpsOf(env[k..])
    decreases k
  {
    if k > 0 {
      assert env[..k][1..] == env[1..][..k - 1] && env[k..] == env[1..][k - 1..];
      OpsOfParts(env[1..], k - 1);
    } else {
      assert env[0..] == env;
    }
  }

  lemma {:induction false} PromoteKeepsClock(q: QueueState, now: int)
    ensures Promote(q, now).clock == q.clock
    decreases |q.schedule|
  {
    if q.schedule != [] && q.schedule[0].runTime <= now {
      PromoteKeepsClock(q.(ready := q.ready + [q.schedule[0].msg], schedule := q.schedule[1..]), now);
    }
  }

  /** The documented guarantee, exactly. When a `Get` returns without a message, a
      message that is ready, or delayed and due at the time `at`, is left behind if
      and only if a post put one into the queue in the last round behind the back
      of its search or of its scan, or one came due after that scan, and no later
      Clear took it out. The clock is last read in the last round: for its scan,
      and once more only if the call ends by its deadline. A `Get` whose waits
      succeed returns without a message only when quitting or after its deadline. */
  lemma {:induction false} QuitDeliversUnless(q: QueueState, wait: int, start: int, now: int, env: seq<Gap>, at: int)
    requires Good(q, NOTHING) && Room(q, OpsIn(env)) && q.clock <= now && Monotone(now, env)
    requires Fetch(q, wait, start, now, env).outcome == NoMessage
    ensures var r := Fetch(q, wait, start, now, env);
            var (s, t, rest) := LastRound(q, wait, start, now, env);
            && (WaitsSucceed(env) ==> r.q.stopped || (wait != FOREVER && r.q.clock - start >= wait))
            && var x := GetRound(s, wait, start, t, rest);
            && x.Done? && r.q == x.r.q && x.r.outcome == NoMessage
            && r.q.clock == LastReading(s, t, rest, x.r.used)
            && (ByDeadline(s, t, rest, x.r.used) ==> wait != FOREVER && r.q.clock - start >= wait)
            && (Undelivered(r.q, at) <==> LeavesBehind(s, t, rest, x.r.used, at))
    decreases |env|
  {
    match GetRound(q, wait, start, now, env)
    case Done(r) =>
      RoundEnds(q, wait, start, now, env);
      LastRoundLeaves(q, wait, start, now, env, at);
    case Again(p, later, w, used) =>
      RoundKeepsGood(q, wait, start, now, env);
      QuitDeliversUnless(p, wait, start, later, env[used..], at);
  }

  /** If no post takes the lock, nothing slips in. */
  lemma {:induction false} NoPushNothingSlips(q: QueueState, ops: seq<Op>, wanted: Posting -> bool)
    requires NoPush(ops)
    ensures !Slips(q, ops, wanted)
    decreases |ops|
  {
    if ops != [] {
      NoPushNothingSlips(DoOp(q, ops[0]), ops[1..], wanted);
    }
  }

  predicate NoPush(ops: seq<Op>) {
    forall op :: op in ops ==> !op.Push?
  }

  /** The guarantee when no post takes the lock in the last round: what is left
      behind is just what came due after its scan, and if the call has no deadline
      nothing has, by the clock as it was last read. */
  lemma WithoutPostsDelivers(q: QueueState, wait: int, start: int, now: int, env: seq<Gap>, at: int)
    requires Good(q, NOTHING) && Room(q, OpsIn(env)) && q.clock <= now && Monotone(now, env)
    requires Fetch(q, wait, start, now, env).outcome == NoMessage
    requires var (s, t, rest) := LastRound(q, wait, start, now, env);
             var x := GetRound(s, wait, start, t, rest);
             x.Done? && x.r.used <= |rest| && NoPush(OpsOf(rest[..x.r.used]))
    ensures var r := Fetch(q, wait, start, now, env);
            var (s, t, rest) := LastRound(q, wait, start, now, env);
            var used := GetRound(s, wait, start, t, rest).r.used;
            && (Undelivered(r.q, at) <==> ComesDue(s, OpsOf(rest[..used]), t, at))
            && (wait == FOREVER ==> !Undelivered(r.q, r.q.clock))
  {
    NoneSlips(q, wait, start, now, env, at);
    if wait == FOREVER {
      NoneSlips(q, wait, start, now, env, Fetch(q, wait, start, now, env).q.clock);
    }
  }

  lemma NoneSlips(q: QueueState, wait: int, start: int, now: int, env: seq<Gap>, at: int)
    requires Good(q, NOTHING) && Room(q, OpsIn(env)) && q.clock <= now && Monotone(now, env)
    requires Fetch(q, wait, start, now, env).outcome == NoMessage
    requires var (s, t, rest) := LastRound(q, wait, start, now, env);
             var x := GetRound(s, wait, start, t, rest);
             x.Done? && x.r.used <= |rest| && NoPush(OpsOf(rest[..x.r.used]))
    ensures var r := Fetch(q, wait, start, now, env);
            var (s, t, rest) := LastRound(q, wait, start, now, env);
            var used := GetRound(s, wait, start, t, rest).r.used;
            && (Undelivered(r.q, at) <==> ComesDue(s, OpsOf(rest[..used]), t, at))
            && (wait == FOREVER ==> r.q.clock == t)
  {
    QuitDeliversUnless(q, wait, start, now, env, at);
    var (s, t, rest) := LastRound(q, wait, start, now, env);
    var used := GetRound(s, wait, start, t, rest).r.used;
    var p := Promote(s.(clock := t), t);
    var d := Drain(p, rest);
    RoundEnds(s, wait, start, t, rest);
    NoPushNothingSlips(p, OpsOf(rest[..used]), HasExpired(at));
    OpsOfParts(rest[..used], d.used);
    assert rest[..used][d.used..] == rest[d.used..used];
    NoPushNothingSlips(d.q, OpsOf(rest[d.used..used]), IsReady);
  }

  // ---------- What can be left behind ----------

  /** A post and a quit, both after the search. */
  lemma PostThenQuitIsMissed(m: Message)
    requires m.due == None
    ensures var r := Fetch(NEW_QUEUE, FOREVER, 0, 0, [Gap([Test(Ready(m)), Push(0), Quit], true, 0)]);
            r.outcome == NoMessage && r.q.ready == [m]
  {
    var q := NEW_QUEUE.(clock := 0);
    var tested := TestFlag(q, Ready(m));
    assert [] + [Ready(m)] == [Ready(m)] && [] + [m] == [m];
    var pushed := PushPassed(tested, 0);
    var ops := [Test(Ready(m)), Push(0), Quit];
    assert ops[1..] == [Push(0), Quit] && [Push(0), Quit][1..] == [Quit] && [Quit][1..] == [];
    assert DoOps(q, ops) == DoOps(tested, [Push(0), Quit]) == DoOps(pushed, [Quit]) == DoOp(pushed, Quit);
  }

  /** A post that tested the flag before the quit and takes the lock after it: here
      the queue is quitting already when `Get` begins. */
  lemma PostAcrossQuitIsMissed(m: Message)
    requires m.due == None
    ensures var q := NEW_QUEUE.(stopped := true, passed := [Ready(m)]);
            var r := Fetch(q, FOREVER, 0, 0, [Gap([Push(0)], true, 0)]);
            q == DoOps(NEW_QUEUE, [Test(Ready(m)), Quit]).(ledger := q.ledger)
            && r.outcome == NoMessage && r.q.ready == [m]
  {
    assert [Test(Ready(m)), Quit][1..] == [Quit] && [Quit][1..] == [] && [Push(0)][1..] == [];
    assert [] + [Ready(m)] == [Ready(m)] && [] + [m] == [m];
    var tested := TestFlag(NEW_QUEUE, Ready(m));
    assert DoOps(NEW_QUEUE, [Test(Ready(m)), Quit]) == DoOps(tested, [Quit]) == DoOp(tested, Quit);
    var q := NEW_QUEUE.(stopped := true, passed := [Ready(m)]);
    assert DoOps(q, [Push(0)]) == DoOp(q, Push(0));
  }

  /** A delayed post that is due already and comes while a dispose message is
      disposed of: the scan is over, though the search is not. */
  lemma ExpiredPostIsMissed(dispose: Message, m: Message)
    requires dispose.id == MQID_DISPOSE && m.due == Some(1)
    ensures var q := NEW_QUEUE.(ready := [dispose]);
            var env := [Gap([Test(Delayed(0, 1, m)), Push(0), Quit], true, 5), Gap([], true, 5)];
            var r := Fetch(q, FOREVER, 5, 5, env);
            r.outcome == NoMessage && r.q.ready == [] && r.q.schedule == [DelayedMessage(0, 1, 0, m)] && r.q.clock == 5
  {
    var ops := [Test(Delayed(0, 1, m)), Push(0), Quit];
    var env := [Gap(ops, true, 5), Gap([], true, 5)];
    var q := NEW_QUEUE.(ready := [dispose], clock := 5);
    var p := Dispose(q.(ready := []), dispose);
    var tested := TestFlag(p, Delayed(0, 1, m));
    assert [] + [Delayed(0, 1, m)] == [Delayed(0, 1, m)] && [dispose][1..] == [];
    var pushed := PushPassed(tested, 0);
    assert ops[1..] == [Push(0), Quit] && [Push(0), Quit][1..] == [Quit] && [Quit][1..] == [];
    assert DoOps(p, ops) == DoOps(tested, [Push(0), Quit]) == DoOps(pushed, [Quit]) == DoOp(pushed, Quit);
    var after := DoOp(pushed, Quit);
    assert env[1..] == [Gap([], true, 5)];
    assert Drain(after, env[1..]) == Drained(after, NoMessage, 0);
    assert Drain(q, env) == Drained(after, NoMessage, 1);
    assert DoOps(after, []) == after;
  }

  /** A message due at 5, a `Get` at 3 that may take until 6, and a quit in its
      wait: the clock is read after the wait, and no scan follows. No post is made. */
  lemma ExpiredInWaitIsMissed(m: Message)
    requires m.due == Some(5)
    ensures var q := DoOps(NEW_QUEUE, [Test(Delayed(2, 5, m)), Push(0)]);
            var r := Fetch(q, 3, 3, 3, [Gap([], true, 3), Gap([Quit], true, 6)]);
            && r.outcome == NoMessage && r.q.stopped && r.q.clock == 6
            && r.q.ready == [] && r.q.schedule == [DelayedMessage(2, 5, 0, m)]
  {
    var ops, env := [Test(Delayed(2, 5, m)), Push(0)], [Gap([], true, 3), Gap([Quit], true, 6)];
    assert [] + [Delayed(2, 5, m)] == [Delayed(2, 5, m)];
    var tested := TestFlag(NEW_QUEUE, Delayed(2, 5, m));
    assert ops[1..] == [Push(0)] && [Push(0)][1..] == [] && [Quit][1..] == [];
    assert DoOps(NEW_QUEUE, ops) == DoOps(tested, [Push(0)]) == PushPassed(tested, 0);
    var q := PushPassed(tested, 0).(clock := 3);
    assert q.schedule == [DelayedMessage(2, 5, 0, m)];
    assert Promote(q, 3) == q && Drain(q, env) == Drained(q, NoMessage, 0);
    assert DoOps(q, []) == q && DoOps(q, [Quit]) == DoOp(q, Quit);
  }

  // ---------- Waiting ----------

  /** The timeout `w` never passes the next message of the schedule `q` has at
      `now`, nor the deadline of the call, and is unlimited only without both. Nor is
      it any shorter: it ends at the one or the other, or at once after the deadline. */
  predicate WaitFits(q: QueueState, wait: int, elapsed: int, now: int, w: int) {
    && (w == FOREVER <==> wait == FOREVER && q.schedule == [])
    && (w != FOREVER ==> 0 <= w)
    && (w != FOREVER && q.schedule != [] ==> now + w <= q.schedule[0].runTime)
    && (w != FOREVER && wait != FOREVER ==> w == 0 || elapsed + w <= wait)
    && (w != FOREVER ==>
          || (q.schedule != [] && now + w == q.schedule[0].runTime)
          || (wait != FOREVER && (elapsed + w == wait || (w == 0 && wait <= elapsed))))
  }

  /** The queue after the scan, and the clock, of each round of a `Get`. */
  function Scans(q: QueueState, wait: int, start: int, now: int, env: seq<Gap>): seq<(QueueState, int)>
    decreases |env|
  {
    [(Promote(q.(clock := now), now), now)] +
    match GetRound(q, wait, start, now, env)
    case Done(r) => []
    case Again(p, later, w, used) => Scans(p, wait, start, later, env[used..])
  }

  /** After a wait that has failed or has ended past the deadline there is no other
      round, nor after the flag was found set. */
  lemma GoesOnOnlyIf(s: QueueState, wait: int, start: int, now: int, env: seq<Gap>)
    requires GetRound(s, wait, start, now, env).Again?
    ensures var d, x := Drain(Promote(s.(clock := now), now), env), GetRound(s, wait, start, now, env);
            && d.first == NoMessage && x.used == d.used + 2 <= |env| && !DoOps(d.q, env[d.used].ops).stopped
            && env[x.used - 1].waitOk && x.now == env[x.used - 1].now && (wait == FOREVER || x.now - start < wait)
  {
  }

  predicate InTime(scans: seq<(QueueState, int)>, wait: int, start: int) {
    forall i :: 0 < i < |scans| ==> wait == FOREVER || scans[i].1 - start < wait
  }

  /** Every scan but the first comes before the deadline. */
  lemma {:induction false} NoRoundPastDeadline(q: QueueState, wait: int, start: int, now: int, env: seq<Gap>)
    ensures InTime(Scans(q, wait, start, now, env), wait, start)
    decreases |env|
  {
    match GetRound(q, wait, start, now, env)
    case Done(r) =>
    case Again(p, later, w, used) =>
      GoesOnOnlyIf(q, wait, start, now, env);
      NoRoundPastDeadline(p, wait, start, later, env[used..]);
      MoreInTime((Promote(q.(clock := now), now), now), Scans(p, wait, start, later, env[used..]), wait, start);
  }

  lemma MoreInTime(scan: (QueueState, int), scans: seq<(QueueState, int)>, wait: int, start: int)
    requires InTime(scans, wait, start) && scans != [] && (wait == FOREVER || scans[0].1 - start < wait)
    ensures InTime([scan] + scans, wait, start)
  {
    forall i | 0 < i < |scans| + 1 ensures wait == FOREVER || ([scan] + scans)[i].1 - start < wait {
      assert i > 1 ==> wait == FOREVER || scans[i - 1].1 - start < wait;
    }
  }

  lemma WaitTimeFits(p: QueueState, wait: int, elapsed: int, now: int)
    requires forall x :: x in p.schedule ==> now < x.runTime
    requires wait == FOREVER || 0 <= wait
    ensures WaitFits(p, wait, elapsed, now, WaitTime(wait, elapsed, UntilNext(p, now)))
  {
    assert p.schedule != [] ==> p.schedule[0] in p.schedule;
  }

  /** The wait of a round, if it comes to it. */
  lemma RoundWaits(q: QueueState, wait: int, start: int, now: int, env: seq<Gap>)
    ensures var w := WaitTime(wait, now - start, UntilNext(Promote(q.(clock := now), now), now));
            match GetRound(q, wait, start, now, env)
            case Done(r) => r.waits == [] || r.waits == [w]
            case Again(_, _, waited, _) => waited == w
  {
  }

  /** `Get` waits at most once a round, and never too long for what it has found. */
  lemma {:induction false} NeverOversleeps(q: QueueState, wait: int, start: int, now: int, env: seq<Gap>)
    requires Good(q, NOTHING) && Room(q, OpsIn(env)) && q.clock <= now && Monotone(now, env)
    requires wait == FOREVER || 0 <= wait
    ensures AllFit(Fetch(q, wait, start, now, env).waits, Scans(q, wait, start, now, env), wait, start)
    decreases |env|
  {
    var p := Promote(q.(clock := now), now);
    NothingDueAfterScan(q.(clock := now), now);
    WaitTimeFits(p, wait, now - start, now);
    RoundWaits(q, wait, start, now, env);
    match GetRound(q, wait, start, now, env)
    case Done(r) =>
    case Again(next, later, w, used) =>
      RoundKeepsGood(q, wait, start, now, env);
      NeverOversleeps(next, wait, start, later, env[used..]);
      AllFitLonger(w, Fetch(next, wait, start, later, env[used..]).waits, (p, now),
                   Scans(next, wait, start, later, env[used..]), wait, start);
  }

  predicate AllFit(ws: seq<int>, scans: seq<(QueueState, int)>, wait: int, start: int) {
    && |scans| - 1 <= |ws| <= |scans|
    && forall i :: 0 <= i < |ws| ==> WaitFits(scans[i].0, wait, scans[i].1 - start, scans[i].1, ws[i])
  }

  lemma AllFitLonger(w: int, ws: seq<int>, scan: (QueueState, int), scans: seq<(QueueState, int)>, wait: int,
                     start: int)
    requires AllFit(ws, scans, wait, start) && WaitFits(scan.0, wait, scan.1 - start, scan.1, w)
    ensures AllFit([w] + ws, [scan] + scans, wait, start)
  {
    forall i | 0 <= i < |[w] + ws|
      ensures WaitFits(([scan] + scans)[i].0, wait, ([scan] + scans)[i].1 - start, ([scan] + scans)[i].1, ([w] + ws)[i])
    {
      if i > 0 {
        assert WaitFits(scans[i - 1].0, wait, scans[i - 1].1 - start, scans[i - 1].1, ws[i - 1]);
      }
    }
  }
}
