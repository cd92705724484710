/** What every run of a thread's message queue keeps. */
module QueueRuns {
  import opened Basics
  import opened DelayedMessages
  import opened QueueSpec

  const NOTHING: multiset<Message> := multiset{}

  // ---------- Filters lose nothing ----------

  lemma {:induction false} InsertAddsMsg(x: DelayedMessage, s: seq<DelayedMessage>)
    ensures Bag(InsertByTime(x, s)) == Bag(s) + multiset{x.msg}
  {
    if s == [] || RunsBefore(x, s[0]) {
      assert ([x] + s)[1..] == s;
    } else {
      InsertAddsMsg(x, s[1..]);
      var r := InsertByTime(x, s[1..]);
      assert ([s[0]] + r)[1..] == r;
    }
  }

  lemma {:induction false} KeepDropPartition(s: seq<DelayedMessage>, handler: nat, id: nat)
    ensures forall m :: Bag(s)[m] == Bag(Keep(s, handler, id))[m] + DropBag(s, handler, id)[m]
  {
    if s != [] {
      KeepDropPartition(s[1..], handler, id);
      var r := Keep(s[1..], handler, id);
      assert ([s[0]] + r)[1..] == r;
    }
  }

  lemma {:induction false} ReadyPartition(s: seq<Message>, handler: nat, id: nat)
    ensures forall m ::
              multiset(s)[m] == multiset(KeepReady(s, handler, id))[m] + multiset(DropReady(s, handler, id))[m]
    ensures forall x :: x in KeepReady(s, handler, id) ==> x in s
  {
    if s != [] {
      assert s == [s[0]] + s[1..];
      ReadyPartition(s[1..], handler, id);
    }
  }

  // ---------- One operation ----------

  /** A post is refused exactly if the queue is quitting, and on its way otherwise. */
  lemma TestKeepsGood(q: QueueState, p: Posting, held: multiset<Message>)
    requires Good(q, held)
    ensures var r, m := TestFlag(q, p), Stamped(p).m;
            && Good(r, held) && r.ledger.posted == q.ledger.posted + multiset{m}
            && r.passed == q.passed + (if q.stopped then [] else [Stamped(p)])
            && r.ledger.refused == q.ledger.refused + (if q.stopped then multiset{m} else multiset{})
  {
    TestConserves(q, p, held);
  }

  lemma TestConserves(q: QueueState, p: Posting, held: multiset<Message>)
    requires Conserved(q, held)
    ensures Conserved(TestFlag(q, p), held)
  {
    var r := TestFlag(q, p);
    assert PostedMsgs(q.passed + [Stamped(p)]) == PostedMsgs(q.passed) + [Stamped(p).m];
    forall n ensures Accounted(r, held, n) == r.ledger.posted[n] {
      assert Accounted(q, held, n) == q.ledger.posted[n];
    }
  }

  lemma WithoutPosting(s: seq<Posting>, k: nat)
    requires k < |s|
    ensures multiset(PostedMsgs(s)) == multiset(PostedMsgs(s[..k] + s[k + 1..])) + multiset{s[k].m}
  {
    assert PostedMsgs(s) == PostedMsgs(s[..k]) + [s[k].m] + PostedMsgs(s[k + 1..]);
    assert PostedMsgs(s[..k] + s[k + 1..]) == PostedMsgs(s[..k]) + PostedMsgs(s[k + 1..]);
  }

  /** On the way from the flag test into the queue a posting is held. */
  lemma TakePostingKeepsGood(q: QueueState, k: nat, held: multiset<Message>)
    requires Good(q, held) && k < |q.passed|
    ensures Good(Taken(q, k), held + multiset{q.passed[k].m})
    ensures q.passed[k] == Stamped(q.passed[k])
  {
    var r, more := Taken(q, k), held + multiset{q.passed[k].m};
    WithoutPosting(q.passed, k);
    forall n ensures Accounted(r, more, n) == r.ledger.posted[n] {
      assert Accounted(q, held, n) == q.ledger.posted[n];
    }
    assert q.passed[k] in q.passed;
  }

  lemma EnterConserves(q: QueueState, p: Posting, held: multiset<Message>)
    requires Conserved(q, held + multiset{p.m})
    ensures Conserved(Enter(q, p), held)
  {
    var r := Enter(q, p);
    if p.Delayed? {
      InsertAddsMsg(DelayedMessage(p.delay, p.runAt, q.nextNum, p.m), q.schedule);
    }
    forall n ensures Accounted(r, held, n) == r.ledger.posted[n] {
      assert Accounted(q, held + multiset{p.m}, n) == q.ledger.posted[n];
    }
  }

  lemma EnterKeepsGood(q: QueueState, p: Posting, held: multiset<Message>)
    requires Good(q, held + multiset{p.m}) && Room(q, 1) && p == Stamped(p)
    ensures Good(Enter(q, p), held)
  {
    EnterConserves(q, p, held);
    if p.Delayed? {
      var x := DelayedMessage(p.delay, p.runAt, q.nextNum, p.m);
      InsertNumbered(x, q.schedule);
      InsertMembers(x, q.schedule);
    }
  }

  lemma PushKeepsGood(q: QueueState, k: nat, held: multiset<Message>)
    requires Good(q, held) && Room(q, 1)
    ensures Good(PushPassed(q, k), held)
  {
    if k < |q.passed| {
      TakePostingKeepsGood(q, k, held);
      EnterKeepsGood(Taken(q, k), q.passed[k], held);
    }
  }

  lemma FlagKeepsGood(q: QueueState, stopped: bool, held: multiset<Message>)
    requires Good(q, held)
    ensures Good(q.(stopped := stopped), held)
  {
    forall n ensures Accounted(q.(stopped := stopped), held, n) == q.ledger.posted[n] {
      assert Accounted(q, held, n) == q.ledger.posted[n];
    }
  }

  lemma ClearKeepsGood(q: QueueState, handler: nat, id: nat, held: multiset<Message>)
    requires Good(q, held)
    ensures Good(ClearMatching(q, handler, id), held)
  {
    ReadyPartition(q.ready, handler, id);
    KeepNumbered(q.schedule, q.nextNum, handler, id);
    ClearConserves(q, handler, id, held);
  }

  lemma ClearConserves(q: QueueState, handler: nat, id: nat, held: multiset<Message>)
    requires Conserved(q, held)
    ensures Conserved(ClearMatching(q, handler, id), held)
  {
    var p := ClearMatching(q, handler, id);
    forall n ensures Accounted(p, held, n) == p.ledger.posted[n] {
      ClearCounts(q, handler, id, n);
      assert p.ledger.cleared[n] == q.ledger.cleared[n] + Removed(q, handler, id)[n];
      assert Accounted(q, held, n) == q.ledger.posted[n];
    }
  }

  lemma {:induction false} DropOnlyMatching(s: seq<DelayedMessage>, ready: seq<Message>, handler: nat, id: nat)
    ensures forall m :: DropBag(s, handler, id)[m] == if m.Match(handler, id) then Bag(s)[m] else 0
    ensures forall m ::
              multiset(DropReady(ready, handler, id))[m] == if m.Match(handler, id) then multiset(ready)[m] else 0
    decreases |s| + |ready|
  {
    if s != [] {
      DropOnlyMatching(s[1..], ready, handler, id);
    } else if ready != [] {
      assert ready == [ready[0]] + ready[1..];
      DropOnlyMatching(s, ready[1..], handler, id);
    }
  }

  /** Clear takes out every copy of a message that matches, and none of another. */
  lemma ClearCounts(q: QueueState, handler: nat, id: nat, n: Message)
    ensures Removed(q, handler, id)[n] == if n.Match(handler, id) then Pending(q, n) else 0
    ensures Pending(ClearMatching(q, handler, id), n) == if n.Match(handler, id) then 0 else Pending(q, n)
  {
    ReadyPartition(q.ready, handler, id);
    KeepDropPartition(q.schedule, handler, id);
    DropOnlyMatching(q.schedule, q.ready, handler, id);
  }

  /** Clearing for every handler and every identifier leaves nothing; for one of them
      it leaves nothing of that one, and all the rest. */
  lemma ClearEmpties(q: QueueState, handler: nat, id: nat, n: Message)
    requires handler != NULLPTR && id != MQID_ANY
    ensures Pending(ClearMatching(q, NULLPTR, MQID_ANY), n) == 0
    ensures Pending(ClearMatching(q, handler, MQID_ANY), n) == if n.phandler == handler then 0 else Pending(q, n)
    ensures Pending(ClearMatching(q, handler, id), n) ==
              if n.phandler == handler && n.id == id then 0 else Pending(q, n)
  {
    ClearCounts(q, NULLPTR, MQID_ANY, n);
    ClearCounts(q, handler, MQID_ANY, n);
    ClearCounts(q, handler, id, n);
  }

  lemma OpKeepsGood(q: QueueState, op: Op, held: multiset<Message>)
    requires Good(q, held) && Room(q, 1)
    ensures var q' := DoOp(q, op);
            Good(q', held) && q'.clock == q.clock && q'.nextNum <= q.nextNum + 1
  {
    match op
    case Test(p) => TestKeepsGood(q, p, held);
    case Push(k) => PushKeepsGood(q, k, held);
    case Clear(handler, id) => ClearKeepsGood(q, handler, id, held);
    case Quit => FlagKeepsGood(q, true, held);
    case Restart => FlagKeepsGood(q, false, held);
  }

  lemma {:induction false} OpsKeepGood(q: QueueState, ops: seq<Op>, held: multiset<Message>)
    requires Good(q, held) && Room(q, |ops|)
    ensures var q' := DoOps(q, ops);
            Good(q', held) && q'.clock == q.clock && q'.nextNum <= q.nextNum + |ops|
    decreases |ops|
  {
    if ops != [] {
      OpKeepsGood(q, ops[0], held);
      OpsKeepGood(DoOp(q, ops[0]), ops[1..], held);
    }
  }

  lemma {:induction false} OpsInParts(q: QueueState, a: seq<Op>, b: seq<Op>)
    ensures DoOps(q, a + b) == DoOps(DoOps(q, a), b)
    decreases |a|
  {
    if a == [] {
      assert a + b == b;
    } else {
      assert (a + b)[1..] == a[1..] + b;
      OpsInParts(DoOp(q, a[0]), a[1..], b);
    }
  }

  lemma OpsBetween(q: QueueState, first: Op, between: seq<Op>, last: Op)
    ensures DoOps(q, [first] + between + [last]) == DoOp(DoOps(DoOp(q, first), between), last)
  {
    var middle := DoOps(DoOp(q, first), between);
    assert ([first] + between)[1..] == between && [last][1..] == [];
    OpsInParts(q, [first] + between, [last]);
    assert DoOps(middle, [last]) == DoOp(middle, last);
  }

  // ---------- Get ----------

  lemma {:induction false} PromoteKeepsGood(q: QueueState, now: int, held: multiset<Message>)
    requires Good(q, held) && q.clock == now
    ensures var q' := Promote(q, now);
            Good(q', held) && q'.clock == now && q'.nextNum == q.nextNum
    decreases |q.schedule|
  {
    if q.schedule != [] && q.schedule[0].runTime <= now {
      PromoteOneKeepsGood(q, held);
      PromoteKeepsGood(q.(ready := q.ready + [q.schedule[0].msg], schedule := q.schedule[1..]), now, held);
    }
  }

  /** Promoting moves exactly the messages due at `now`, in schedule order. */
  lemma {:induction false} PromoteMovesDue(q: QueueState, now: int) returns (k: nat)
    requires Sorted(q.schedule)
    ensures k <= |q.schedule|
    ensures Promote(q, now) == q.(ready := q.ready + Msgs(q.schedule[..k]), schedule := q.schedule[k..])
    ensures forall i :: 0 <= i < |q.schedule| ==> (q.schedule[i].runTime <= now <==> i < k)
    decreases |q.schedule|
  {
    var s := q.schedule;
    if s != [] && s[0].runTime <= now {
      var p := q.(ready := q.ready + [s[0].msg], schedule := s[1..]);
      var n := PromoteMovesDue(p, now);
      k := n + 1;
      assert s[..k] == [s[0]] + s[1..][..n];
      assert s[..k][1..] == s[1..][..n];
      assert p.ready + Msgs(s[1..][..n]) == q.ready + Msgs(s[..k]);
      assert s[1..][n..] == s[k..];
      forall i | 0 <= i < |s| ensures s[i].runTime <= now <==> i < k {
        assert i > 0 ==> s[i] == s[1..][i - 1];
      }
    } else {
      k := 0;
      assert q.ready + Msgs(s[..0]) == q.ready;
      assert forall i :: 0 < i < |s| ==> s[i] in s[1..];
    }
  }

  lemma PromoteOneKeepsGood(q: QueueState, held: multiset<Message>)
    requires Good(q, held) && q.schedule != [] && q.schedule[0].runTime <= q.clock
    ensures Good(q.(ready := q.ready + [q.schedule[0].msg], schedule := q.schedule[1..]), held)
  {
    var p := q.(ready := q.ready + [q.schedule[0].msg], schedule := q.schedule[1..]);
    assert q.schedule == [q.schedule[0]] + q.schedule[1..];
    forall n ensures Accounted(p, held, n) == p.ledger.posted[n] {
      assert Accounted(q, held, n) == q.ledger.posted[n];
    }
  }

  ghost function HeldBy(o: Outcome): multiset<Message> {
    if o.Got? then multiset{o.m} else multiset{}
  }

  ghost predicate FetchedWell(q: QueueState, now: int, env: seq<Gap>, r: Fetched) {
    && Good(r.q, HeldBy(r.outcome))
    && (r.outcome.Got? ==> Due(r.outcome.m, r.q.clock) && r.outcome.m.id != MQID_DISPOSE)
    && r.used <= |env|
    && now <= r.q.clock
    && r.q.nextNum <= q.nextNum + OpsIn(env)
  }

  /** What stays true while the first `used` gaps of `env` are gone through. */
  ghost predicate Spent(q: QueueState, env: seq<Gap>, p: QueueState, used: nat)
    requires used <= |env|
  {
    p.clock == q.clock && p.nextNum + OpsIn(env[used..]) <= q.nextNum + OpsIn(env)
  }

  lemma OpsInTail(env: seq<Gap>, k: nat)
    requires k < |env|
    ensures OpsIn(env[k..]) == |env[k].ops| + OpsIn(env[k + 1..])
  {
    assert env[k..][0] == env[k] && env[k..][1..] == env[k + 1..];
  }

  lemma {:induction false} DrainKeepsGood(q: QueueState, env: seq<Gap>)
    requires Good(q, NOTHING) && Room(q, OpsIn(env))
    ensures var d := Drain(q, env);
            && Good(d.q, HeldBy(d.first)) && Spent(q, env, d.q, d.used)
            && (d.first.Got? ==> Due(d.first.m, d.q.clock) && d.first.m.id != MQID_DISPOSE)
    decreases |env|
  {
    assert env[0..] == env;
    if q.ready != [] {
      TakeOneKeepsGood(q);
      if q.ready[0].id == MQID_DISPOSE && env != [] {
        var p := Dispose(q.(ready := q.ready[1..]), q.ready[0]);
        OpsKeepGood(p, env[0].ops, NOTHING);
        DrainKeepsGood(DoOps(p, env[0].ops), env[1..]);
        var d := Drain(DoOps(p, env[0].ops), env[1..]);
        assert env[1..][d.used..] == env[d.used + 1..];
      }
    }
  }

  ghost predicate RoundedWell(q: QueueState, now: int, env: seq<Gap>, x: Round)
    requires x.Again? && x.used <= |env|
  {
    && Good(x.q, NOTHING) && x.q.clock == now && now <= x.now && Monotone(x.now, env[x.used..])
    && x.q.nextNum + OpsIn(env[x.used..]) <= q.nextNum + OpsIn(env)
  }

  /** The first locked pass of a round: the due messages move over, and the front
      of the ready list is taken. */
  lemma PassKeepsGood(q: QueueState, now: int, env: seq<Gap>)
    requires Good(q, NOTHING) && Room(q, OpsIn(env)) && q.clock <= now
    ensures var d := Drain(Promote(q.(clock := now), now), env);
            && Good(d.q, HeldBy(d.first)) && d.q.clock == now
            && d.q.nextNum + OpsIn(env[d.used..]) <= q.nextNum + OpsIn(env)
            && (d.first.Got? ==> Due(d.first.m, now) && d.first.m.id != MQID_DISPOSE)
  {
    ClockKeepsGood(q, now);
    PromoteKeepsGood(q.(clock := now), now, NOTHING);
    DrainKeepsGood(Promote(q.(clock := now), now), env);
  }

  lemma RoundKeepsGood(q: QueueState, wait: int, start: int, now: int, env: seq<Gap>)
    requires Good(q, NOTHING) && Room(q, OpsIn(env)) && q.clock <= now && Monotone(now, env)
    ensures var x := GetRound(q, wait, start, now, env);
            && (x.Done? ==> FetchedWell(q, now, env, x.r))
            && (x.Again? ==> RoundedWell(q, now, env, x))
  {
    PassKeepsGood(q, now, env);
    var p := Promote(q.(clock := now), now);
    var d := Drain(p, env);
    if d.first == NoMessage {
      AfterDrainKeepsGood(q, d.q, wait, start, WaitTime(wait, now - start, UntilNext(p, now)), d.used, now, env);
    }
  }

  /** Good, with the clock at `now`, and room for the posts of the gaps to come. */
  ghost predicate GoodWithin(q: QueueState, now: int, env: seq<Gap>, bound: nat) {
    Good(q, NOTHING) && q.clock == now && q.nextNum + OpsIn(env) <= bound < NUM_LIMIT
  }

  lemma GapKeepsGood(q: QueueState, now: int, used: nat, env: seq<Gap>, bound: nat)
    requires used < |env| && GoodWithin(q, now, env[used..], bound)
    ensures GoodWithin(DoOps(q, env[used].ops), now, env[used + 1..], bound)
  {
    OpsInTail(env, used);
    OpsKeepGood(q, env[used].ops, NOTHING);
  }

  lemma EndsWell(q: QueueState, now: int, env: seq<Gap>, p: QueueState, rest: seq<Gap>, at: int, r: Fetched)
    requires GoodWithin(p, at, rest, q.nextNum + OpsIn(env)) && now <= at
    requires r.q == p && !r.outcome.Got? && r.used <= |env|
    ensures FetchedWell(q, now, env, r)
  {
  }

  lemma AfterDrainKeepsGood(q: QueueState, d: QueueState, wait: int, start: int, w: int, used: nat, now: int,
                            env: seq<Gap>)
    requires Room(q, OpsIn(env)) && Monotone(now, env) && used <= |env|
    requires Good(d, NOTHING) && d.clock == now && d.nextNum + OpsIn(env[used..]) <= q.nextNum + OpsIn(env)
    ensures var x := AfterDrain(d, wait, start, w, used, env);
            && (x.Done? ==> FetchedWell(q, now, env, x.r))
            && (x.Again? ==> RoundedWell(q, now, env, x))
  {
    var x := AfterDrain(d, wait, start, w, used, env);
    if used == |env| {
      EndsWell(q, now, env, d, env[used..], now, x.r);
    } else {
      GapKeepsGood(d, now, used, env, q.nextNum + OpsIn(env));
      var p := DoOps(d, env[used].ops);
      if p.stopped || used + 1 == |env| {
        EndsWell(q, now, env, p, env[used + 1..], now, x.r);
      } else {
        WaitKeepsGood(q, p, wait, start, w, used + 1, now, env);
      }
    }
  }

  /** The wait, its result, and the deadline. */
  lemma WaitKeepsGood(q: QueueState, p: QueueState, wait: int, start: int, w: int, k: nat, now: int, env: seq<Gap>)
    requires Monotone(now, env) && 0 < k < |env| && !p.stopped
    requires GoodWithin(p, now, env[k..], q.nextNum + OpsIn(env))
    ensures var x := AfterWait(DoOps(p, env[k].ops), env[k], wait, start, w, k + 1);
            && (x.Done? ==> FetchedWell(q, now, env, x.r))
            && (x.Again? ==> RoundedWell(q, now, env, x))
  {
    GapKeepsGood(p, now, k, env, q.nextNum + OpsIn(env));
    MonotoneTail(now, env, k);
    var r := DoOps(p, env[k].ops);
    var x := AfterWait(r, env[k], wait, start, w, k + 1);
    ClockKeepsGood(r, env[k].now);
    if x.Done? {
      EndsWell(q, now, env, x.r.q, env[k + 1..], x.r.q.clock, x.r);
    }
  }

  lemma {:induction false} FetchKeepsGood(q: QueueState, wait: int, start: int, now: int, env: seq<Gap>)
    requires Good(q, NOTHING) && Room(q, OpsIn(env)) && q.clock <= now && Monotone(now, env)
    ensures FetchedWell(q, now, env, Fetch(q, wait, start, now, env))
    decreases |env|
  {
    RoundKeepsGood(q, wait, start, now, env);
    match GetRound(q, wait, start, now, env)
    case Done(r) =>
    case Again(p, later, w, used) => FetchKeepsGood(p, wait, start, later, env[used..]);
  }

  lemma ClockKeepsGood(q: QueueState, now: int)
    requires Good(q, NOTHING) && q.clock <= now
    ensures Good(q.(clock := now), NOTHING)
  {
    forall n ensures Accounted(q.(clock := now), NOTHING, n) == q.ledger.posted[n] {
      assert Accounted(q, NOTHING, n) == q.ledger.posted[n];
    }
  }

  lemma TakeOneKeepsGood(q: QueueState)
    requires Good(q, NOTHING) && q.ready != []
    ensures Good(q.(ready := q.ready[1..]), multiset{q.ready[0]})
    ensures q.ready[0].id == MQID_DISPOSE ==> Good(Dispose(q.(ready := q.ready[1..]), q.ready[0]), NOTHING)
  {
    assert q.ready == [q.ready[0]] + q.ready[1..];
    var p := q.(ready := q.ready[1..]);
    var m := q.ready[0];
    forall n
      ensures Accounted(p, multiset{m}, n) == p.ledger.posted[n]
      ensures Accounted(Dispose(p, m), NOTHING, n) == p.ledger.posted[n]
    {
      assert Accounted(q, NOTHING, n) == q.ledger.posted[n];
    }
  }

  lemma {:induction false} MonotoneTail(now: int, env: seq<Gap>, k: nat)
    requires k < |env| && Monotone(now, env)
    ensures now <= env[k].now && Monotone(env[k].now, env[k + 1..])
    decreases k
  {
    if k > 0 {
      MonotoneTail(env[0].now, env[1..], k - 1);
      assert env[1..][k..] == env[k + 1..];
    }
  }

  // ---------- Whole runs ----------

  datatype Command =
    | Do(op: Op)
    | CallGet(wait: int, now: int, env: seq<Gap>)
    | CallPeek(wait: int, now: int, env: seq<Gap>)

  const NEW_QUEUE := QueueState([], [], None, false, 0, [], 0,
                                Ledger(multiset{}, [], multiset{}, multiset{}, multiset{}, []))

  function Execute(q: QueueState, c: Command): Fetched {
    match c
    case Do(op) => Fetched(DoOp(q, op), Unfinished, [], 0)
    case CallGet(wait, now, env) => Get(q, wait, now, env)
    case CallPeek(wait, now, env) => Peek(q, wait, now, env)
  }

  function Run(q: QueueState, cs: seq<Command>): QueueState
    decreases |cs|
  {
    if cs == [] then q else Run(Execute(q, cs[0]).q, cs[1..])
  }

  function PostsIn(c: Command): nat {
    if c.Do? then 1 else OpsIn(c.env)
  }

  function PostsInAll(cs: seq<Command>): nat {
    if cs == [] then 0 else PostsIn(cs[0]) + PostsInAll(cs[1..])
  }

  /** Calls start when the previous one is over, and clocks run forward. */
  predicate Timed(q: QueueState, cs: seq<Command>)
    decreases |cs|
  {
    cs == [] ||
    (TimedCall(q, cs[0]) && Timed(Execute(q, cs[0]).q, cs[1..]))
  }

  predicate TimedCall(q: QueueState, c: Command) {
    c.Do? || (q.clock <= c.now && Monotone(c.now, c.env))
  }

  lemma DeliverKeepsGood(q: QueueState, m: Message)
    requires Good(q, multiset{m}) && Due(m, q.clock) && m.id != MQID_DISPOSE
    ensures Good(HandOver(q, m), NOTHING)
  {
    DeliverConserves(q, m);
  }

  lemma DeliverConserves(q: QueueState, m: Message)
    requires Conserved(q, multiset{m})
    ensures Conserved(HandOver(q, m), NOTHING)
  {
    var p := HandOver(q, m);
    assert DeliveredMsgs(p.ledger.delivered) == DeliveredMsgs(q.ledger.delivered) + [m];
    forall n ensures Accounted(p, NOTHING, n) == p.ledger.posted[n] {
      assert Accounted(q, multiset{m}, n) == q.ledger.posted[n];
    }
  }

  lemma PeekSlotKeepsGood(q: QueueState, m: Message)
    requires Good(q, multiset{m}) && q.peek == None && Due(m, q.clock) && m.id != MQID_DISPOSE
    ensures Good(q.(peek := Some(m)), NOTHING)
  {
    forall n ensures Accounted(q.(peek := Some(m)), NOTHING, n) == q.ledger.posted[n] {
      assert Accounted(q, multiset{m}, n) == q.ledger.posted[n];
    }
  }

  lemma UnpeekKeepsGood(q: QueueState)
    requires Good(q, NOTHING) && q.peek.Some?
    ensures Good(q.(peek := None), multiset{q.peek.value})
  {
    forall n ensures Accounted(q.(peek := None), multiset{q.peek.value}, n) == q.ledger.posted[n] {
      assert Accounted(q, NOTHING, n) == q.ledger.posted[n];
    }
  }

  /** Only Peek fills the peek slot. */
  lemma {:induction false} OpsLeaveNoPeek(q: QueueState, ops: seq<Op>)
    requires q.peek == None
    ensures DoOps(q, ops).peek == None
    decreases |ops|
  {
    if ops != [] {
      OpsLeaveNoPeek(DoOp(q, ops[0]), ops[1..]);
    }
  }

  lemma {:induction false} PromoteLeavesNoPeek(q: QueueState, now: int)
    ensures Promote(q, now).peek == q.peek && Promote(q, now).stopped == q.stopped
    decreases |q.schedule|
  {
    if q.schedule != [] && q.schedule[0].runTime <= now {
      PromoteLeavesNoPeek(q.(ready := q.ready + [q.schedule[0].msg], schedule := q.schedule[1..]), now);
    }
  }

  lemma {:induction false} DrainLeavesNoPeek(q: QueueState, env: seq<Gap>)
    requires q.peek == None
    ensures Drain(q, env).q.peek == None
    decreases |env|
  {
    if q.ready != [] && env != [] {
      var p := Dispose(q.(ready := q.ready[1..]), q.ready[0]);
      OpsLeaveNoPeek(p, env[0].ops);
      DrainLeavesNoPeek(DoOps(p, env[0].ops), env[1..]);
    }
  }

  lemma {:induction false} FetchLeavesNoPeek(q: QueueState, wait: int, start: int, now: int, env: seq<Gap>)
    requires q.peek == None
    ensures Fetch(q, wait, start, now, env).q.peek == None
    decreases |env|
  {
    PromoteLeavesNoPeek(q.(clock := now), now);
    var p := Promote(q.(clock := now), now);
    DrainLeavesNoPeek(p, env);
    var d := Drain(p, env);
    if d.used < |env| {
      OpsLeaveNoPeek(d.q, env[d.used].ops);
      if d.used + 1 < |env| {
        OpsLeaveNoPeek(DoOps(d.q, env[d.used].ops), env[d.used + 1].ops);
      }
    }
    match GetRound(q, wait, start, now, env)
    case Done(r) =>
    case Again(s, later, w, used) => FetchLeavesNoPeek(s, wait, start, later, env[used..]);
  }

  lemma StepKeepsGood(q: QueueState, c: Command)
    requires Good(q, NOTHING) && Room(q, PostsIn(c)) && TimedCall(q, c)
    ensures var r := Execute(q, c);
            && Good(r.q, NOTHING) && r.q.nextNum <= q.nextNum + PostsIn(c)
            && (r.outcome.Got? ==> Due(r.outcome.m, r.q.clock) && r.outcome.m.id != MQID_DISPOSE)
            && (r.outcome.Got? && c.CallPeek? ==> r.q.peek == Some(r.outcome.m))
            && (r.outcome.Got? && c.CallGet? ==>
                  var all := r.q.ledger.delivered;
                  all != [] && all[|all| - 1] == Delivery(r.outcome.m, r.q.clock))
  {
    match c
    case Do(op) => OpKeepsGood(q, op, NOTHING);
    case CallGet(wait, now, env) =>
      if q.peek.Some? {
        UnpeekKeepsGood(q);
        DeliverKeepsGood(q.(peek := None), q.peek.value);
      } else {
        FetchKeepsGood(q, wait, now, now, env);
        var r := Fetch(q, wait, now, now, env);
        if r.outcome.Got? {
          DeliverKeepsGood(r.q, r.outcome.m);
        }
      }
    case CallPeek(wait, now, env) =>
      if q.peek == None {
        FetchKeepsGood(q, wait, now, now, env);
        FetchLeavesNoPeek(q, wait, now, now, env);
        var r := Fetch(q, wait, now, now, env);
        if r.outcome.Got? {
          PeekSlotKeepsGood(r.q, r.outcome.m);
        }
      }
  }

  /** Every run from a new queue, with other threads and destructors acting in
      every gap, loses and duplicates nothing and lets nothing through early. */
  lemma {:induction false} RunKeepsGood(q: QueueState, cs: seq<Command>)
    requires Good(q, NOTHING) && Room(q, PostsInAll(cs)) && Timed(q, cs)
    ensures Good(Run(q, cs), NOTHING)
    decreases |cs|
  {
    if cs != [] {
      StepKeepsGood(q, cs[0]);
      RunKeepsGood(Execute(q, cs[0]).q, cs[1..]);
    }
  }

  lemma EveryRunIsGood(cs: seq<Command>)
    requires PostsInAll(cs) < NUM_LIMIT && Timed(NEW_QUEUE, cs)
    ensures Good(Run(NEW_QUEUE, cs), NOTHING)
  {
    assert forall n :: Accounted(NEW_QUEUE, NOTHING, n) == 0;
    RunKeepsGood(NEW_QUEUE, cs);
  }

  /** A peek followed by a get is one get. */
  lemma PeekGetSymmetry(q: QueueState, wait: int, now: int, env: seq<Gap>, wait': int, now': int, env': seq<Gap>)
    requires q.peek == None && Peek(q, wait, now, env).outcome.Got?
    ensures var p := Peek(q, wait, now, env);
            var g := Get(p.q, wait', now', env');
            && g.outcome == p.outcome && g.used == 0
            && g.q == Get(q, wait, now, env).q
  {
    FetchLeavesNoPeek(q, wait, now, now, env);
  }
}
