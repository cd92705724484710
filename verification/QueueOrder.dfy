/** The order of messages: a queue hands on the undelayed messages in the order in
    which their posts took its lock, whatever other threads do. */
module QueueOrder {
  import opened Basics
  import opened DelayedMessages
  import opened QueueSpec
  import opened QueueRuns

  // ---------- Parts of a list in their order ----------

  /** `s` is what `order` has at the places `at`, which go up. */
  ghost predicate Places<T>(at: seq<nat>, s: seq<T>, order: seq<T>) {
    && |at| == |s|
    && (forall i :: 0 <= i < |at| ==> at[i] < |order| && order[at[i]] == s[i])
    && (forall i, j :: 0 <= i < j < |at| ==> at[i] < at[j])
  }

  /** `s` is `order` with some elements left out. */
  ghost predicate InOrder<T>(s: seq<T>, order: seq<T>) {
    exists at: seq<nat> :: Places(at, s, order)
  }

  lemma InOrderOfAll<T>(s: seq<T>)
    ensures InOrder(s, s)
  {
    assert Places(seq(|s|, i => i), s, s);
  }

  lemma InOrderTrans<T>(r: seq<T>, s: seq<T>, t: seq<T>)
    requires InOrder(r, s) && InOrder(s, t)
    ensures InOrder(r, t)
  {
    var a :| Places(a, r, s);
    var b :| Places(b, s, t);
    assert Places(seq(|a|, i requires 0 <= i < |a| => b[a[i]]), r, t);
  }

  lemma InOrderConcat<T>(a: seq<T>, b: seq<T>, c: seq<T>, d: seq<T>)
    requires InOrder(a, c) && InOrder(b, d)
    ensures InOrder(a + b, c + d)
  {
    var x :| Places(x, a, c);
    var y :| Places(y, b, d);
    var at := x + seq(|y|, i requires 0 <= i < |y| => |c| + y[i]);
    assert Places(at, a + b, c + d);
  }

  // ---------- The line of undelayed messages ----------

  function Undelayed(s: seq<Message>): seq<Message> {
    if s == [] then []
    else if s[0].due.None? then [s[0]] + Undelayed(s[1..])
    else Undelayed(s[1..])
  }

  lemma {:induction false} UndelayedConcat(a: seq<Message>, b: seq<Message>)
    ensures Undelayed(a + b) == Undelayed(a) + Undelayed(b)
  {
    if a == [] {
      assert a + b == b;
    } else {
      assert (a + b)[1..] == a[1..] + b;
      UndelayedConcat(a[1..], b);
    }
  }

  lemma {:induction false} UndelayedCounts(s: seq<Message>, m: Message)
    ensures multiset(Undelayed(s))[m] == if m.due.None? then multiset(s)[m] else 0
  {
    if s != [] {
      assert s == [s[0]] + s[1..];
      UndelayedCounts(s[1..], m);
    }
  }

  lemma {:induction false} KeepReadyInOrder(s: seq<Message>, handler: nat, id: nat)
    ensures InOrder(Undelayed(KeepReady(s, handler, id)), Undelayed(s))
  {
    if s == [] {
      InOrderOfAll(Undelayed(s));
    } else {
      var kept, first, rest := KeepReady(s[1..], handler, id), Undelayed([s[0]]), Undelayed(s[1..]);
      KeepReadyInOrder(s[1..], handler, id);
      assert s == [s[0]] + s[1..];
      UndelayedConcat([s[0]], s[1..]);
      UndelayedConcat([s[0]], kept);
      InOrderOfAll(first);
      InOrderConcat(first, Undelayed(kept), first, rest);
      LeftOut(first);
      InOrderConcat([], Undelayed(kept), first, rest);
      assert [] + Undelayed(kept) == Undelayed(kept);
    }
  }

  lemma LeftOut<T>(s: seq<T>)
    ensures InOrder([], s)
  {
    assert Places([], [], s);
  }

  function Peeked(q: QueueState): seq<Message> {
    if q.peek.Some? then [q.peek.value] else []
  }

  /** What has been delivered, then what is peeked, then what a call in progress has
      taken out of the ready messages, then these. */
  function Line(q: QueueState, held: seq<Message>): seq<Message> {
    DeliveredMsgs(q.ledger.delivered) + Peeked(q) + held + q.ready
  }

  /** The undelayed messages of the line are in the order of their posts, and those
      of their posts that are not in it have been disposed of or cleared. */
  ghost predicate Fifo(q: QueueState, held: seq<Message>) {
    InOrder(Undelayed(Line(q, held)), q.ledger.pushed) && AllPushed(q)
  }

  /** Every undelayed message posted is refused, on its way, or was pushed. */
  ghost predicate AllPushed(q: QueueState) {
    forall m: Message :: PushCounted(q, m)
  }

  ghost predicate PushCounted(q: QueueState, m: Message) {
    m.due.None? ==> multiset(q.ledger.pushed)[m] + OnItsWay(q, m) + q.ledger.refused[m] == q.ledger.posted[m]
  }

  /** The line of `r` is that of `q`, perhaps without some messages, and no post has
      come in between. */
  ghost predicate LineShrinks(q: QueueState, held: seq<Message>, r: QueueState, rest: seq<Message>) {
    && InOrder(Undelayed(Line(r, rest)), Undelayed(Line(q, held)))
    && r.passed == q.passed && r.ledger.pushed == q.ledger.pushed && r.ledger.refused == q.ledger.refused
    && r.ledger.posted == q.ledger.posted
  }

  lemma ShrinkKeepsFifo(q: QueueState, held: seq<Message>, r: QueueState, rest: seq<Message>)
    requires Fifo(q, held) && LineShrinks(q, held, r, rest)
    ensures Fifo(r, rest)
  {
    InOrderTrans(Undelayed(Line(r, rest)), Undelayed(Line(q, held)), q.ledger.pushed);
    forall m: Message ensures PushCounted(r, m) {
      assert PushCounted(q, m);
    }
  }

  lemma SameLine(q: QueueState, held: seq<Message>, r: QueueState, rest: seq<Message>)
    requires Fifo(q, held) && Undelayed(Line(r, rest)) == Undelayed(Line(q, held))
    requires r.passed == q.passed && r.ledger.pushed == q.ledger.pushed && r.ledger.refused == q.ledger.refused
    requires r.ledger.posted == q.ledger.posted
    ensures Fifo(r, rest)
  {
    InOrderOfAll(Undelayed(Line(q, held)));
    ShrinkKeepsFifo(q, held, r, rest);
  }

  // ---------- One operation ----------

  lemma TestKeepsFifo(q: QueueState, p: Posting)
    requires Fifo(q, [])
    ensures Fifo(TestFlag(q, p), [])
  {
    var r := TestFlag(q, p);
    assert Line(r, []) == Line(q, []);
    assert PostedMsgs(q.passed + [Stamped(p)]) == PostedMsgs(q.passed) + [Stamped(p).m];
    forall m: Message ensures PushCounted(r, m) {
      assert PushCounted(q, m);
    }
  }

  lemma PushKeepsFifo(q: QueueState, k: nat)
    requires Fifo(q, []) && NeverEarly(q)
    ensures Fifo(PushPassed(q, k), [])
  {
    if k < |q.passed| {
      assert q.passed[k] in q.passed && q.passed[k] == Stamped(q.passed[k]);
      PushIsCounted(q, k);
      if q.passed[k].Ready? {
        JoinsInOrder(q, PushPassed(q, k), q.passed[k].m);
      } else {
        assert Line(PushPassed(q, k), []) == Line(q, []);
        assert q.ledger.pushed + [] == q.ledger.pushed;
      }
    }
  }

  lemma PushIsCounted(q: QueueState, k: nat)
    requires AllPushed(q) && k < |q.passed| && q.passed[k] == Stamped(q.passed[k])
    ensures AllPushed(PushPassed(q, k))
  {
    WithoutPosting(q.passed, k);
    forall m: Message ensures PushCounted(PushPassed(q, k), m) {
      assert PushCounted(q, m);
    }
  }

  lemma JoinsInOrder(q: QueueState, r: QueueState, m: Message)
    requires InOrder(Undelayed(Line(q, [])), q.ledger.pushed) && m.due.None?
    requires r.ready == q.ready + [m] && r.peek == q.peek && r.ledger.delivered == q.ledger.delivered
    requires r.ledger.pushed == q.ledger.pushed + [m]
    ensures InOrder(Undelayed(Line(r, [])), r.ledger.pushed)
  {
    assert Line(r, []) == Line(q, []) + [m];
    UndelayedConcat(Line(q, []), [m]);
    assert Undelayed([m]) == [m];
    InOrderOfAll([m]);
    InOrderConcat(Undelayed(Line(q, [])), [m], q.ledger.pushed, [m]);
  }

  lemma ClearKeepsFifo(q: QueueState, handler: nat, id: nat)
    requires Fifo(q, [])
    ensures Fifo(ClearMatching(q, handler, id), [])
  {
    var r, before := ClearMatching(q, handler, id), DeliveredMsgs(q.ledger.delivered);
    KeepReadyInOrder(q.ready, handler, id);
    InOrderOfAll(Undelayed(before));
    InOrderOfAll(Undelayed(Peeked(q)));
    LeftOut(Undelayed(Peeked(q)));
    InOrderConcat(Undelayed(before), Undelayed(Peeked(r)), Undelayed(before), Undelayed(Peeked(q)));
    InOrderConcat(Undelayed(before) + Undelayed(Peeked(r)), Undelayed(r.ready),
                  Undelayed(before) + Undelayed(Peeked(q)), Undelayed(q.ready));
    UndelayedLine(q);
    UndelayedLine(r);
    ShrinkKeepsFifo(q, [], r, []);
  }

  lemma UndelayedLine(q: QueueState)
    ensures Undelayed(Line(q, []))
            == Undelayed(DeliveredMsgs(q.ledger.delivered)) + Undelayed(Peeked(q)) + Undelayed(q.ready)
  {
    assert Line(q, []) == DeliveredMsgs(q.ledger.delivered) + Peeked(q) + q.ready;
    UndelayedConcat(DeliveredMsgs(q.ledger.delivered) + Peeked(q), q.ready);
    UndelayedConcat(DeliveredMsgs(q.ledger.delivered), Peeked(q));
  }

  lemma OpKeepsFifo(q: QueueState, op: Op)
    requires Fifo(q, []) && NeverEarly(q)
    ensures Fifo(DoOp(q, op), [])
  {
    match op
    case Test(p) => TestKeepsFifo(q, p);
    case Push(k) => PushKeepsFifo(q, k);
    case Clear(handler, id) => ClearKeepsFifo(q, handler, id);
    case _ => SameLine(q, [], DoOp(q, op), []);
  }

  lemma {:induction false} OpsKeepFifo(q: QueueState, ops: seq<Op>)
    requires Fifo(q, []) && Good(q, NOTHING) && Room(q, |ops|)
    ensures Fifo(DoOps(q, ops), [])
    decreases |ops|
  {
    if ops != [] {
      OpKeepsFifo(q, ops[0]);
      OpKeepsGood(q, ops[0], NOTHING);
      OpsKeepFifo(DoOp(q, ops[0]), ops[1..]);
    }
  }

  // ---------- Get ----------

  /** What is promoted is delayed, and joins the line behind the undelayed ones. */
  lemma {:induction false} PromoteKeepsFifo(q: QueueState, now: int)
    requires Fifo(q, []) && Good(q, NOTHING) && q.clock == now
    ensures Fifo(Promote(q, now), [])
    decreases |q.schedule|
  {
    if q.schedule != [] && q.schedule[0].runTime <= now {
      PromoteOneKeepsFifo(q);
      PromoteOneKeepsGood(q, NOTHING);
      PromoteKeepsFifo(q.(ready := q.ready + [q.schedule[0].msg], schedule := q.schedule[1..]), now);
    }
  }

  lemma PromoteOneKeepsFifo(q: QueueState)
    requires Fifo(q, []) && NeverEarly(q) && q.schedule != []
    ensures Fifo(q.(ready := q.ready + [q.schedule[0].msg], schedule := q.schedule[1..]), [])
  {
    var x := q.schedule[0];
    var p := q.(ready := q.ready + [x.msg], schedule := q.schedule[1..]);
    assert x in q.schedule && x.msg.due.Some?;
    assert Line(p, []) == Line(q, []) + [x.msg];
    UndelayedConcat(Line(q, []), [x.msg]);
    assert Undelayed([x.msg]) == [];
    SameLine(q, [], p, []);
  }

  function HeldSeq(o: Outcome): seq<Message> {
    if o.Got? then [o.m] else []
  }

  lemma TakeOneKeepsFifo(q: QueueState)
    requires Fifo(q, []) && q.ready != [] && q.peek == None
    ensures Fifo(q.(ready := q.ready[1..]), [q.ready[0]])
    ensures Fifo(Dispose(q.(ready := q.ready[1..]), q.ready[0]), [])
  {
    var p, m := q.(ready := q.ready[1..]), q.ready[0];
    assert Line(p, [m]) == Line(q, []);
    SameLine(q, [], p, [m]);
    var d, before := Dispose(p, m), DeliveredMsgs(q.ledger.delivered);
    assert Line(d, []) == before + d.ready && Line(q, []) == before + ([m] + d.ready);
    UndelayedConcat(before, d.ready);
    UndelayedConcat(before, [m] + d.ready);
    UndelayedConcat([m], d.ready);
    LeftOut(Undelayed([m]));
    InOrderOfAll(Undelayed(d.ready));
    InOrderOfAll(Undelayed(before));
    InOrderConcat([], Undelayed(d.ready), Undelayed([m]), Undelayed(d.ready));
    assert [] + Undelayed(d.ready) == Undelayed(d.ready);
    InOrderConcat(Undelayed(before), Undelayed(d.ready), Undelayed(before), Undelayed([m] + d.ready));
    ShrinkKeepsFifo(q, [], d, []);
  }

  lemma {:induction false} DrainKeepsFifo(q: QueueState, env: seq<Gap>)
    requires Fifo(q, []) && Good(q, NOTHING) && Room(q, OpsIn(env)) && q.peek == None
    ensures Fifo(Drain(q, env).q, HeldSeq(Drain(q, env).first))
    decreases |env|
  {
    if q.ready != [] {
      TakeOneKeepsFifo(q);
      TakeOneKeepsGood(q);
      if q.ready[0].id == MQID_DISPOSE && env != [] {
        var p := Dispose(q.(ready := q.ready[1..]), q.ready[0]);
        OpsKeepFifo(p, env[0].ops);
        OpsKeepGood(p, env[0].ops, NOTHING);
        OpsLeaveNoPeek(p, env[0].ops);
        DrainKeepsFifo(DoOps(p, env[0].ops), env[1..]);
      }
    }
  }

  lemma PassKeepsFifo(q: QueueState, now: int, env: seq<Gap>)
    requires Fifo(q, []) && Good(q, NOTHING) && Room(q, OpsIn(env)) && q.peek == None && q.clock <= now
    ensures var d := Drain(Promote(q.(clock := now), now), env);
            Fifo(d.q, HeldSeq(d.first)) && d.q.peek == None
  {
    var p := q.(clock := now);
    ClockKeepsFifo(q, now);
    ClockKeepsGood(q, now);
    PromoteKeepsFifo(p, now);
    PromoteKeepsGood(p, now, NOTHING);
    PromoteLeavesNoPeek(p, now);
    DrainKeepsFifo(Promote(p, now), env);
    DrainLeavesNoPeek(Promote(p, now), env);
  }

  ghost predicate RoundInOrder(x: Round) {
    match x
    case Done(r) => Fifo(r.q, HeldSeq(r.outcome)) && r.q.peek == None
    case Again(q, _, _, _) => Fifo(q, []) && q.peek == None
  }

  lemma RoundKeepsFifo(q: QueueState, wait: int, start: int, now: int, env: seq<Gap>)
    requires Fifo(q, []) && Good(q, NOTHING) && Room(q, OpsIn(env)) && q.peek == None && q.clock <= now
    ensures RoundInOrder(GetRound(q, wait, start, now, env))
  {
    PassKeepsFifo(q, now, env);
    PassKeepsGood(q, now, env);
    var p := Promote(q.(clock := now), now);
    var d := Drain(p, env);
    if d.first == NoMessage {
      AfterDrainKeepsFifo(d.q, wait, start, WaitTime(wait, now - start, UntilNext(p, now)), d.used, env);
    }
  }

  ghost predicate Steady(q: QueueState, env: seq<Gap>) {
    Fifo(q, []) && Good(q, NOTHING) && q.peek == None && Room(q, OpsIn(env))
  }

  lemma GapKeepsFifo(q: QueueState, used: nat, env: seq<Gap>)
    requires used < |env| && Steady(q, env[used..])
    ensures Steady(DoOps(q, env[used].ops), env[used + 1..])
  {
    OpsInTail(env, used);
    OpsKeepFifo(q, env[used].ops);
    OpsKeepGood(q, env[used].ops, NOTHING);
    OpsLeaveNoPeek(q, env[used].ops);
  }

  lemma EndsInOrder(x: Round, q: QueueState)
    requires Fifo(q, []) && q.peek == None
    requires match x
             case Done(r) => r.q == q && !r.outcome.Got?
             case Again(p, _, _, _) => p == q
    ensures RoundInOrder(x)
  {
  }

  lemma AfterDrainKeepsFifo(d: QueueState, wait: int, start: int, w: int, used: nat, env: seq<Gap>)
    requires used <= |env| && Steady(d, env[used..])
    ensures RoundInOrder(AfterDrain(d, wait, start, w, used, env))
  {
    var x := AfterDrain(d, wait, start, w, used, env);
    if used == |env| {
      EndsInOrder(x, d);
    } else {
      GapKeepsFifo(d, used, env);
      var p := DoOps(d, env[used].ops);
      if p.stopped || used + 1 == |env| {
        EndsInOrder(x, p);
      } else {
        WaitKeepsFifo(p, used + 1, env);
        var r := DoOps(p, env[used + 1].ops);
        EndsInOrder(x, if x.Done? && env[used + 1].waitOk then r.(clock := env[used + 1].now) else r);
      }
    }
  }

  lemma WaitKeepsFifo(p: QueueState, k: nat, env: seq<Gap>)
    requires k < |env| && Steady(p, env[k..])
    ensures var r := DoOps(p, env[k].ops);
            Fifo(r, []) && Fifo(r.(clock := env[k].now), []) && r.peek == None
  {
    GapKeepsFifo(p, k, env);
    ClockKeepsFifo(DoOps(p, env[k].ops), env[k].now);
  }

  lemma ClockKeepsFifo(q: QueueState, now: int)
    requires Fifo(q, [])
    ensures Fifo(q.(clock := now), [])
  {
    assert Line(q.(clock := now), []) == Line(q, []);
    SameLine(q, [], q.(clock := now), []);
  }

  lemma {:induction false} FetchKeepsFifo(q: QueueState, wait: int, start: int, now: int, env: seq<Gap>)
    requires Fifo(q, []) && Good(q, NOTHING) && Room(q, OpsIn(env)) && q.peek == None
    requires q.clock <= now && Monotone(now, env)
    ensures var r := Fetch(q, wait, start, now, env);
            Fifo(r.q, HeldSeq(r.outcome)) && r.q.peek == None
    decreases |env|
  {
    RoundKeepsFifo(q, wait, start, now, env);
    RoundKeepsGood(q, wait, start, now, env);
    match GetRound(q, wait, start, now, env)
    case Done(r) =>
    case Again(p, later, w, used) => FetchKeepsFifo(p, wait, start, later, env[used..]);
  }

  // ---------- Whole runs ----------

  lemma HandOverKeepsFifo(q: QueueState, m: Message)
    requires Fifo(q, [m]) && q.peek == None
    ensures Fifo(HandOver(q, m), [])
  {
    var r := HandOver(q, m);
    assert DeliveredMsgs(r.ledger.delivered) == DeliveredMsgs(q.ledger.delivered) + [m];
    assert Line(r, []) == Line(q, [m]);
    SameLine(q, [m], r, []);
  }

  lemma UnpeekKeepsFifo(q: QueueState)
    requires Fifo(q, []) && q.peek.Some?
    ensures Fifo(q.(peek := None), [q.peek.value])
  {
    var p, m := q.(peek := None), q.peek.value;
    assert Line(p, [m]) == Line(q, []);
    SameLine(q, [], p, [m]);
  }

  lemma PeekSlotKeepsFifo(q: QueueState, m: Message)
    requires Fifo(q, [m]) && q.peek == None
    ensures Fifo(q.(peek := Some(m)), [])
  {
    var p := q.(peek := Some(m));
    assert Line(p, []) == Line(q, [m]);
    SameLine(q, [m], p, []);
  }

  lemma GetKeepsFifo(q: QueueState, wait: int, now: int, env: seq<Gap>)
    requires Fifo(q, []) && Good(q, NOTHING) && Room(q, OpsIn(env)) && q.clock <= now && Monotone(now, env)
    ensures Fifo(Get(q, wait, now, env).q, [])
  {
    if q.peek.Some? {
      UnpeekKeepsFifo(q);
      HandOverKeepsFifo(q.(peek := None), q.peek.value);
    } else {
      FetchKeepsFifo(q, wait, now, now, env);
      var r := Fetch(q, wait, now, now, env);
      if r.outcome.Got? {
        HandOverKeepsFifo(r.q, r.outcome.m);
      }
    }
  }

  lemma PeekKeepsFifo(q: QueueState, wait: int, now: int, env: seq<Gap>)
    requires Fifo(q, []) && Good(q, NOTHING) && Room(q, OpsIn(env)) && q.clock <= now && Monotone(now, env)
    ensures Fifo(Peek(q, wait, now, env).q, [])
  {
    if q.peek == None {
      FetchKeepsFifo(q, wait, now, now, env);
      var r := Fetch(q, wait, now, now, env);
      if r.outcome.Got? {
        PeekSlotKeepsFifo(r.q, r.outcome.m);
      }
    }
  }

  lemma StepKeepsFifo(q: QueueState, c: Command)
    requires Fifo(q, []) && Good(q, NOTHING) && Room(q, PostsIn(c)) && TimedCall(q, c)
    ensures Fifo(Execute(q, c).q, [])
  {
    match c
    case Do(op) => OpKeepsFifo(q, op);
    case CallGet(wait, now, env) => GetKeepsFifo(q, wait, now, env);
    case CallPeek(wait, now, env) => PeekKeepsFifo(q, wait, now, env);
  }

  lemma {:induction false} RunKeepsFifo(q: QueueState, cs: seq<Command>)
    requires Fifo(q, []) && Good(q, NOTHING) && Room(q, PostsInAll(cs)) && Timed(q, cs)
    ensures Fifo(Run(q, cs), [])
    decreases |cs|
  {
    if cs != [] {
      StepKeepsFifo(q, cs[0]);
      StepKeepsGood(q, cs[0]);
      RunKeepsFifo(Execute(q, cs[0]).q, cs[1..]);
    }
  }

  /** Over every run from a new queue: the undelayed messages delivered, then the
      one peeked, then those that are ready are in the order in which their posts
      took the lock, and of these only what was disposed of or cleared is missing. */
  lemma FirstInFirstOut(cs: seq<Command>)
    requires PostsInAll(cs) < NUM_LIMIT && Timed(NEW_QUEUE, cs)
    ensures var q := Run(NEW_QUEUE, cs);
            var line := Undelayed(Line(q, []));
            && InOrder(line, q.ledger.pushed)
            && (forall m: Message :: m.due.None? ==>
                  multiset(q.ledger.pushed)[m] == multiset(line)[m] + q.ledger.disposed[m] + q.ledger.cleared[m])
  {
    RunIsFifo(cs);
    AllPushedAccounted(Run(NEW_QUEUE, cs));
  }

  lemma AllPushedAccounted(q: QueueState)
    requires Good(q, NOTHING) && AllPushed(q)
    ensures forall m: Message :: m.due.None? ==>
              multiset(q.ledger.pushed)[m]
              == multiset(Undelayed(Line(q, [])))[m] + q.ledger.disposed[m] + q.ledger.cleared[m]
  {
    forall m: Message | m.due.None?
      ensures multiset(q.ledger.pushed)[m]
              == multiset(Undelayed(Line(q, [])))[m] + q.ledger.disposed[m] + q.ledger.cleared[m]
    {
      PushedAreAccounted(q, m);
    }
  }

  lemma RunIsFifo(cs: seq<Command>)
    requires PostsInAll(cs) < NUM_LIMIT && Timed(NEW_QUEUE, cs)
    ensures Fifo(Run(NEW_QUEUE, cs), []) && Good(Run(NEW_QUEUE, cs), NOTHING)
  {
    NewIsFifo();
    EveryRunIsGood([]);
    RunKeepsFifo(NEW_QUEUE, cs);
    EveryRunIsGood(cs);
  }

  lemma NewIsFifo()
    ensures Fifo(NEW_QUEUE, [])
  {
    LeftOut<Message>([]);
    assert Line(NEW_QUEUE, []) == [];
    assert forall m: Message :: PushCounted(NEW_QUEUE, m);
  }

  lemma PushedAreAccounted(q: QueueState, m: Message)
    requires Good(q, NOTHING) && AllPushed(q) && m.due.None?
    ensures multiset(q.ledger.pushed)[m]
            == multiset(Undelayed(Line(q, [])))[m] + q.ledger.disposed[m] + q.ledger.cleared[m]
  {
    UndelayedCounts(Line(q, []), m);
    NoneScheduled(q.schedule, m);
    assert PushCounted(q, m) && Accounted(q, NOTHING, m) == q.ledger.posted[m];
  }

  lemma {:induction false} NoneScheduled(s: seq<DelayedMessage>, m: Message)
    requires m.due.None? && forall x :: x in s ==> x.msg.due == Some(x.runTime)
    ensures Bag(s)[m] == 0
  {
    if s != [] {
      assert s[0] in s;
      NoneScheduled(s[1..], m);
    }
  }
}
