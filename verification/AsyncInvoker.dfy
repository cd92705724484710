/** The teardown of an `AsyncInvoker` (rtc_base/async_invoker.cc) as a state
    machine whose steps are the atomic actions of the threads involved, under
    sequential consistency: closures made, posted, run and destroyed, against a
    destructor that clears queues and waits on an auto-reset event. */
module AsyncInvoker {

  type ThreadId = nat
  type ClosureId = nat

  /** Whose code a step on a closure is part of. */
  datatype Agent =
    | Functor(c: ClosureId)       // an AsyncInvoke call made by the functor of `c`
    | Outside                     // an AsyncInvoke or Clear call made outside every functor
    | Dispatcher(t: ThreadId)     // the message loop or the teardown of thread `t`
    | Destructor                  // the invoker's destructor

  datatype Stage =
    | Made(who: Agent)             // constructed and counted, `destroying_` not yet read
    | Checked(who: Agent)          // `destroying_` read as false, about to be posted
    | Queued(on: ThreadId)
    | Running(on: ThreadId)
    | Doomed(who: Agent)           // about to decrement `pending_invocations_`
    | Decremented(who: Agent)      // about to call Set
    | Gone

  datatype Phase =
    | NotStarted
    | ClearingAll(todo: set<ThreadId>)   // ThreadManager::Clear, these queues to go
    | Checking                           // about to read `pending_invocations_`
    | ClearingOwn                        // about to clear the current thread's queue
    | ClearedOwn                         // finishing the closures just cleared
    | InWait                             // in Event::Wait
    | Destroyed                          // the invoker's memory is released

  /** `home` is the thread that runs the destructor, `threads` all threads. */
  datatype State = State(closures: map<ClosureId, Stage>, pending: int, destroying: bool, signaled: bool,
                         phase: Phase, home: ThreadId, threads: set<ThreadId>)

  datatype Step =
    | Construct(c: ClosureId, who: Agent)
    | Load(c: ClosureId)
    | Post(c: ClosureId, t: ThreadId)
    | Discard(c: ClosureId)              // the thread posted to is quitting
    | Dispatch(c: ClosureId)
    | Finish(c: ClosureId)
    | Decrement(c: ClosureId)
    | SetEvent(c: ClosureId)
    | ClearQueue(t: ThreadId, who: Agent)
    | BeginDestroying
    | ClearNext(t: ThreadId)
    | EndClearAll
    | Check
    | ClearOwn
    | BeginWait
    | Wake

  // ---------- The steps ----------

  predicate Alive(g: Stage) {
    !g.Decremented? && !g.Gone?
  }

  /** An agent is busy with the closure right now. */
  predicate Handled(g: Stage) {
    g.Made? || g.Checked? || g.Doomed? || g.Decremented?
  }

  predicate In(g: Stage, who: Agent) {
    Handled(g) && g.who == who
  }

  predicate Busy(s: State, who: Agent) {
    exists c :: c in s.closures && In(s.closures[c], who)
  }

  predicate Occupied(s: State, t: ThreadId) {
    exists c :: c in s.closures && s.closures[c] == Running(t)
  }

  predicate RunningNow(s: State, c: ClosureId) {
    c in s.closures && s.closures[c].Running?
  }

  /** A call may be made from within a running functor that is in no other call,
      or, up to the start of the destructor, from outside. */
  predicate MayCall(s: State, who: Agent) {
    match who
    case Functor(c) => RunningNow(s, c) && !Busy(s, who)
    case Outside => s.phase.NotStarted?
    case _ => false
  }

  predicate Destructing(s: State) {
    !s.phase.NotStarted? && !s.phase.Destroyed?
  }

  /** `who` is code of thread `t`. */
  predicate RunsOn(s: State, who: Agent, t: ThreadId) {
    match who
    case Functor(c) => c in s.closures && s.closures[c] == Running(t)
    case Outside => false
    case Dispatcher(d) => d == t
    case Destructor => t == s.home
  }

  /** A thread does one thing at a time: while the destructor runs on `home`, all
      other code of `home` is below it on the stack, or has to wait for it. */
  predicate Suspended(s: State, who: Agent) {
    Destructing(s) && !who.Destructor? && RunsOn(s, who, s.home)
  }

  function Handler(s: State, c: ClosureId): Agent {
    if c in s.closures && Handled(s.closures[c]) then s.closures[c].who else Destructor
  }

  function AgentOf(s: State, step: Step): Agent {
    match step
    case Construct(_, who) => who
    case ClearQueue(_, who) => who
    case Load(c) => Handler(s, c)
    case Post(c, _) => Handler(s, c)
    case Discard(c) => Handler(s, c)
    case Decrement(c) => Handler(s, c)
    case SetEvent(c) => Handler(s, c)
    case Dispatch(c) => if c in s.closures && s.closures[c].Queued? then Dispatcher(s.closures[c].on) else Destructor
    case Finish(c) => Functor(c)
    case _ => Destructor
  }

  predicate Enabled(s: State, step: Step) {
    !Suspended(s, AgentOf(s, step)) && MayTake(s, step)
  }

  predicate MayTake(s: State, step: Step) {
    match step
    case Construct(c, who) => c !in s.closures && MayCall(s, who)
    case Load(c) => c in s.closures && s.closures[c].Made?
    case Post(c, t) => c in s.closures && s.closures[c].Checked? && t in s.threads
    case Discard(c) => c in s.closures && s.closures[c].Checked?
    case Dispatch(c) =>
      c in s.closures && s.closures[c].Queued? && !Occupied(s, s.closures[c].on)
    case Finish(c) => RunningNow(s, c) && !Busy(s, Functor(c))
    case Decrement(c) => c in s.closures && s.closures[c].Doomed?
    case SetEvent(c) => c in s.closures && s.closures[c].Decremented?
    case ClearQueue(t, who) => MayCall(s, who) || who == Dispatcher(t)
    // The start-of-chain rule: no call from outside is in progress.
    case BeginDestroying => s.phase.NotStarted? && !Busy(s, Outside)
    case ClearNext(t) => s.phase.ClearingAll? && t in s.phase.todo && !Busy(s, Destructor)
    case EndClearAll => s.phase.ClearingAll? && s.phase.todo == {} && !Busy(s, Destructor)
    case Check => s.phase.Checking?
    case ClearOwn => s.phase.ClearingOwn?
    case BeginWait => s.phase.ClearedOwn? && !Busy(s, Destructor)
    case Wake => s.phase.InWait? && s.signaled
  }

  function Cleared(closures: map<ClosureId, Stage>, t: ThreadId, who: Agent): map<ClosureId, Stage> {
    map c | c in closures :: if closures[c] == Queued(t) then Doomed(who) else closures[c]
  }

  function TakeStep(s: State, step: Step): State
    requires Enabled(s, step)
  {
    match step
    case Construct(c, who) => s.(closures := s.closures[c := Made(who)], pending := s.pending + 1)
    case Load(c) =>
      var who := s.closures[c].who;
      s.(closures := s.closures[c := if s.destroying then Doomed(who) else Checked(who)])
    case Post(c, t) => s.(closures := s.closures[c := Queued(t)])
    case Discard(c) => s.(closures := s.closures[c := Doomed(s.closures[c].who)])
    case Dispatch(c) => s.(closures := s.closures[c := Running(s.closures[c].on)])
    case Finish(c) => s.(closures := s.closures[c := Doomed(Dispatcher(s.closures[c].on))])
    case Decrement(c) => s.(closures := s.closures[c := Decremented(s.closures[c].who)], pending := s.pending - 1)
    case SetEvent(c) => s.(closures := s.closures[c := Gone], signaled := true)
    case ClearQueue(t, who) => s.(closures := Cleared(s.closures, t, who))
    case BeginDestroying => s.(destroying := true, phase := ClearingAll(s.threads))
    case ClearNext(t) => s.(closures := Cleared(s.closures, t, Destructor), phase := ClearingAll(s.phase.todo - {t}))
    case EndClearAll => s.(phase := Checking)
    case Check => s.(phase := if s.pending > 0 then ClearingOwn else Destroyed)
    case ClearOwn => s.(closures := Cleared(s.closures, s.home, Destructor), phase := ClearedOwn)
    case BeginWait => s.(phase := InWait)
    case Wake => s.(signaled := false, phase := Checking)
  }

  /** The steps that read or write the invoker itself; Set touches only the
      reference-counted event, and posting and clearing only its address. */
  predicate Touches(step: Step) {
    !step.Post? && !step.Discard? && !step.SetEvent? && !step.ClearQueue?
  }

  function Init(home: ThreadId, threads: set<ThreadId>): State {
    State(map[], 0, false, false, NotStarted, home, threads)
  }

  // ---------- The invariant ----------

  function AliveSet(closures: map<ClosureId, Stage>): set<ClosureId> {
    set c | c in closures && Alive(closures[c])
  }

  /** Calls are made by running functors or from outside, and end before their
      functor does; outside calls are over when the destructor starts. */
  ghost predicate CallsNested(s: State) {
    forall c :: c in s.closures ==> CallNested(s, s.closures[c])
  }

  ghost predicate CallNested(s: State, g: Stage) {
    && (g.Made? || g.Checked? ==> g.who.Functor? || g.who.Outside?)
    && (g.Made? || g.Checked? || g.Doomed? || g.Decremented? ==>
          && (g.who.Functor? ==> RunningNow(s, g.who.c))
          && (g.who.Outside? ==> s.phase.NotStarted?)
          && (g.who.Destructor? ==> s.phase.ClearingAll? || s.phase.ClearedOwn?))
  }

  /** Something will still set the event, or never let the count reach zero. */
  predicate Pendent(s: State, g: Stage) {
    && !g.Gone?
    && (s.phase.ClearingOwn? || g != Queued(s.home))
    && !(g.Decremented? && Suspended(s, g.who))
  }

  ghost predicate WakeupComing(s: State) {
    s.phase.ClearingOwn? || s.phase.ClearedOwn? || s.phase.InWait? ==>
    s.signaled || exists c :: c in s.closures && Pendent(s, s.closures[c])
  }

  ghost predicate Inv(s: State) {
    && s.pending == |AliveSet(s.closures)|
    && (s.destroying <==> !s.phase.NotStarted?)
    && CallsNested(s)
    && (s.phase.Destroyed? ==> AliveSet(s.closures) == {})
    && WakeupComing(s)
  }

  lemma InitInv(home: ThreadId, threads: set<ThreadId>)
    ensures Inv(Init(home, threads))
  {
  }

  // ---------- Each step keeps it ----------

  lemma StaysAlive(m: map<ClosureId, Stage>, c: ClosureId, g: Stage)
    requires c in m && Alive(m[c]) == Alive(g)
    ensures AliveSet(m[c := g]) == AliveSet(m)
  {
  }

  lemma BecomesAlive(m: map<ClosureId, Stage>, c: ClosureId, g: Stage)
    requires c !in m && Alive(g)
    ensures |AliveSet(m[c := g])| == |AliveSet(m)| + 1
  {
    assert AliveSet(m[c := g]) == AliveSet(m) + {c};
  }

  lemma EndsAlive(m: map<ClosureId, Stage>, c: ClosureId, g: Stage)
    requires c in m && Alive(m[c]) && !Alive(g)
    ensures |AliveSet(m[c := g])| == |AliveSet(m)| - 1
  {
    assert AliveSet(m) == AliveSet(m[c := g]) + {c};
  }

  lemma ClearedAlive(m: map<ClosureId, Stage>, t: ThreadId, who: Agent)
    ensures AliveSet(Cleared(m, t, who)) == AliveSet(m)
  {
  }

  lemma StepKeepsCount(s: State, step: Step)
    requires Enabled(s, step) && s.pending == |AliveSet(s.closures)|
    ensures var s' := TakeStep(s, step);
            s'.pending == |AliveSet(s'.closures)|
  {
    var m := s.closures;
    match step
    case Construct(c, who) => BecomesAlive(m, c, Made(who));
    case Load(c) => StaysAlive(m, c, if s.destroying then Doomed(m[c].who) else Checked(m[c].who));
    case Post(c, t) => StaysAlive(m, c, Queued(t));
    case Discard(c) => StaysAlive(m, c, Doomed(m[c].who));
    case Dispatch(c) => StaysAlive(m, c, Running(m[c].on));
    case Finish(c) => StaysAlive(m, c, Doomed(Dispatcher(m[c].on)));
    case Decrement(c) => EndsAlive(m, c, Decremented(m[c].who));
    case SetEvent(c) => StaysAlive(m, c, Gone);
    case ClearQueue(t, who) => ClearedAlive(m, t, who);
    case ClearNext(t) => ClearedAlive(m, t, Destructor);
    case ClearOwn => ClearedAlive(m, s.home, Destructor);
    case _ =>
  }

  /** Once the destructor has found the count at zero, it stays there. */
  lemma StepKeepsNoneAlive(s: State, step: Step)
    requires Enabled(s, step) && Inv(s)
    ensures var s' := TakeStep(s, step);
            s'.phase.Destroyed? ==> AliveSet(s'.closures) == {}
  {
    if TakeStep(s, step).phase.Destroyed? && s.phase.Destroyed? {
      assert forall c :: c in s.closures && Alive(s.closures[c]) ==> c in AliveSet(s.closures);
    }
  }

  lemma StepKeepsNested(s: State, step: Step)
    requires Enabled(s, step) && CallsNested(s)
    ensures CallsNested(TakeStep(s, step))
  {
    var s' := TakeStep(s, step);
    forall c | c in s'.closures ensures CallNested(s', s'.closures[c]) {
      assert c in s.closures ==> CallNested(s, s.closures[c]);
      if c in s.closures && (step.BeginDestroying? || step.EndClearAll? || step.BeginWait?) {
        assert In(s.closures[c], Outside) ==> Busy(s, Outside);
        assert In(s.closures[c], Destructor) ==> Busy(s, Destructor);
      }
    }
  }

  lemma StepKeepsWakeup(s: State, step: Step)
    requires Enabled(s, step) && Inv(s)
    ensures WakeupComing(TakeStep(s, step))
  {
    var s' := TakeStep(s, step);
    if (s'.phase.ClearingOwn? || s'.phase.ClearedOwn? || s'.phase.InWait?) && !s'.signaled {
      if step.Check? {
        var c :| c in AliveSet(s.closures);
        assert Pendent(s', s'.closures[c]);
      } else {
        var c :| c in s.closures && Pendent(s, s.closures[c]);
        assert CallNested(s, s.closures[c]);
        if step == Post(c, s.home) {
          assert Pendent(s', s'.closures[s.closures[c].who.c]);
        } else {
          assert Pendent(s', s'.closures[c]);
        }
      }
    }
  }

  lemma StepKeepsInv(s: State, step: Step)
    requires Enabled(s, step) && Inv(s)
    ensures Inv(TakeStep(s, step))
  {
    StepKeepsCount(s, step);
    StepKeepsNoneAlive(s, step);
    StepKeepsNested(s, step);
    StepKeepsWakeup(s, step);
  }

  // ---------- Every run ----------

  predicate IsRun(s: State, steps: seq<Step>)
    decreases |steps|
  {
    steps == [] || (Enabled(s, steps[0]) && IsRun(TakeStep(s, steps[0]), steps[1..]))
  }

  function EndOf(s: State, steps: seq<Step>): State
    requires IsRun(s, steps)
    decreases |steps|
  {
    if steps == [] then s else EndOf(TakeStep(s, steps[0]), steps[1..])
  }

  lemma {:induction false} RunKeepsInv(s: State, steps: seq<Step>)
    requires Inv(s) && IsRun(s, steps)
    ensures Inv(EndOf(s, steps))
    decreases |steps|
  {
    if steps != [] {
      StepKeepsInv(s, steps[0]);
      RunKeepsInv(TakeStep(s, steps[0]), steps[1..]);
    }
  }

  /** Once the destructor has finished, no step that touches the invoker is left. */
  lemma NothingTouchesAfterDone(home: ThreadId, threads: set<ThreadId>, steps: seq<Step>, next: Step)
    requires IsRun(Init(home, threads), steps)
    requires var s := EndOf(Init(home, threads), steps);
             s.phase.Destroyed? && Enabled(s, next)
    ensures !Touches(next)
  {
    InitInv(home, threads);
    RunKeepsInv(Init(home, threads), steps);
    var s := EndOf(Init(home, threads), steps);
    assert forall c :: c in s.closures && Alive(s.closures[c]) ==> c in AliveSet(s.closures);
  }

  /** `pending_invocations_` is the number of closures not yet decremented, and is
      zero, with no functor running or queued, when the destructor finishes. */
  lemma PendingCountsClosures(home: ThreadId, threads: set<ThreadId>, steps: seq<Step>)
    requires IsRun(Init(home, threads), steps)
    ensures var s := EndOf(Init(home, threads), steps);
            && s.pending == |AliveSet(s.closures)|
            && (s.phase.Destroyed? ==> s.pending == 0 && forall c :: c in s.closures ==> !Alive(s.closures[c]))
  {
    InitInv(home, threads);
    RunKeepsInv(Init(home, threads), steps);
    var s := EndOf(Init(home, threads), steps);
    assert forall c :: c in s.closures && Alive(s.closures[c]) ==> c in AliveSet(s.closures);
  }

  // ---------- Who the destructor waits for ----------

  /** The closure is with code of `home` that has to wait for the destructor: a
      functor running there, or a call or a destruction in progress there. */
  predicate HeldAtHome(s: State, g: Stage) {
    g == Running(s.home) || (Handled(g) && !g.who.Destructor? && RunsOn(s, g.who, s.home))
  }

  /** No closure that counts is held by the destructor's own thread: at the start
      of the destructor, that it is not called from a functor of the invoker, nor
      from the destruction of one. */
  predicate HomeFree(s: State) {
    forall c :: c in s.closures && Alive(s.closures[c]) ==> !HeldAtHome(s, s.closures[c])
  }

  /** How many steps a closure has to go before it is gone. */
  function ToGo(g: Stage): nat {
    match g
    case Made(_) => 6
    case Checked(_) => 5
    case Queued(_) => 4
    case Running(_) => 3
    case Doomed(_) => 2
    case Decremented(_) => 1
    case Gone => 0
  }

  // ---------- The life of a closure ----------

  predicate Clears(step: Step) {
    step.ClearQueue? || step.ClearNext? || step.ClearOwn?
  }

  /** A step on one closure brings that one closer to its end, and no other: it runs
      on the thread that it was posted to. */
  lemma StepOnOne(s: State, step: Step, c: ClosureId)
    requires Enabled(s, step)
    requires step in {Load(c), Discard(c), Dispatch(c), Finish(c), Decrement(c), SetEvent(c)}
             || (step.Post? && step.c == c)
    ensures var after := TakeStep(s, step).closures;
            && c in s.closures && c in after && ToGo(after[c]) < ToGo(s.closures[c])
            && after == s.closures[c := after[c]]
            && (step.Post? ==> after[c] == Queued(step.t))
            && (step.Dispatch? ==> s.closures[c].Queued? && after[c] == Running(s.closures[c].on))
  {
  }

  /** Clearing the queue of a thread dooms all that is in it, and leaves the rest. */
  lemma ClearEmptiesQueue(s: State, step: Step, c: ClosureId)
    requires Enabled(s, step) && Clears(step) && c in s.closures
    ensures var t, after := if step.ClearOwn? then s.home else step.t, TakeStep(s, step).closures;
            && c in after && after[c] != Queued(t)
            && (if s.closures[c] == Queued(t) then after[c] == Doomed(AgentOf(s, step)) else after[c] == s.closures[c])
  {
  }

  lemma NoStepBack(s: State, step: Step, c: ClosureId)
    requires Enabled(s, step) && c in s.closures
    ensures c in TakeStep(s, step).closures && ToGo(TakeStep(s, step).closures[c]) <= ToGo(s.closures[c])
  {
    if Clears(step) {
      ClearEmptiesQueue(s, step, c);
    }
  }

  function Dispatches(steps: seq<Step>, c: ClosureId): nat {
    if steps == [] then 0 else (if steps[0] == Dispatch(c) then 1 else 0) + Dispatches(steps[1..], c)
  }

  /** A functor runs at most once, and not at all once its closure has been cleared. */
  lemma {:induction false} RunsAtMostOnce(s: State, steps: seq<Step>, c: ClosureId)
    requires IsRun(s, steps)
    ensures Dispatches(steps, c) <= 1
    ensures c in s.closures && ToGo(s.closures[c]) <= ToGo(Running(s.home)) ==> Dispatches(steps, c) == 0
    decreases |steps|
  {
    if steps != [] {
      RunsAtMostOnce(TakeStep(s, steps[0]), steps[1..], c);
      if c in s.closures {
        NoStepBack(s, steps[0], c);
      }
      if steps[0] == Dispatch(c) {
        StepOnOne(s, steps[0], c);
      }
    }
  }

  function Sets(steps: seq<Step>): nat {
    if steps == [] then 0 else (if steps[0].SetEvent? then 1 else 0) + Sets(steps[1..])
  }

  function Wakes(steps: seq<Step>): nat {
    if steps == [] then 0 else (if steps[0].Wake? then 1 else 0) + Wakes(steps[1..])
  }

  /** The event resets itself: each wait that ends takes a Set of its own. */
  lemma {:induction false} WakesNeedSets(home: ThreadId, threads: set<ThreadId>, s: State, steps: seq<Step>)
    requires IsRun(s, steps)
    ensures Wakes(steps) + (if EndOf(s, steps).signaled then 1 else 0)
            <= Sets(steps) + (if s.signaled then 1 else 0)
    ensures s == Init(home, threads) ==> Wakes(steps) <= Sets(steps)
    decreases |steps|
  {
    if steps != [] {
      WakesNeedSets(home, threads, TakeStep(s, steps[0]), steps[1..]);
    }
  }

  function Todo(closures: map<ClosureId, Stage>): set<(ClosureId, nat)> {
    set c, k: nat | c in closures && k < ToGo(closures[c]) :: (c, k)
  }

  lemma TodoShrinks(m: map<ClosureId, Stage>, c: ClosureId, g: Stage)
    requires c in m && ToGo(g) < ToGo(m[c])
    ensures Todo(m[c := g]) < Todo(m)
  {
    assert (c, ToGo(g)) in Todo(m) - Todo(m[c := g]);
  }

  lemma ClearedTodo(m: map<ClosureId, Stage>, t: ThreadId, who: Agent)
    ensures Todo(Cleared(m, t, who)) <= Todo(m)
    ensures (exists c :: c in m && m[c] == Queued(t)) ==> Todo(Cleared(m, t, who)) < Todo(m)
  {
    if c :| c in m && m[c] == Queued(t) {
      assert (c, 2) in Todo(m) - Todo(Cleared(m, t, who));
    }
  }

  /** A step of some thread other than `home` that brings a closure closer to its
      end, or one of the destructor on a closure that it clears. */
  ghost predicate MovesOn(s: State, next: Step, t: ThreadId) {
    && Enabled(s, next)
    && RunsOn(s, AgentOf(s, next), t)
    && (t == s.home ==> AgentOf(s, next).Destructor? && !s.phase.InWait?)
    && Todo(TakeStep(s, next).closures) < Todo(s.closures)
    && TakeStep(s, next).phase == s.phase
  }

  /** A closure that some agent is busy with, and that agent can go on. */
  lemma HandledMoves(s: State, c: ClosureId) returns (next: Step, t: ThreadId)
    requires Inv(s) && Destructing(s) && s.threads != {}
    requires c in s.closures && Handled(s.closures[c]) && !HeldAtHome(s, s.closures[c])
    ensures MovesOn(s, next, t)
  {
    var m := s.closures;
    assert CallNested(s, m[c]);
    t := s.home;
    if m[c].who.Functor? {
      t := m[m[c].who.c].on;
    } else if m[c].who.Dispatcher? {
      t := m[c].who.t;
    }
    match m[c]
    case Made(who) =>
      next := Load(c);
      TodoShrinks(m, c, Doomed(who));
    case Checked(_) =>
      var to :| to in s.threads;
      next := Post(c, to);
      TodoShrinks(m, c, Queued(to));
    case Doomed(who) =>
      next := Decrement(c);
      TodoShrinks(m, c, Decremented(who));
    case Decremented(_) =>
      next := SetEvent(c);
      TodoShrinks(m, c, Gone);
  }

  /** A functor that runs on another thread can go on, or a call within it can. */
  lemma RunningMoves(s: State, c: ClosureId) returns (next: Step, t: ThreadId)
    requires Inv(s) && Destructing(s) && s.threads != {}
    requires RunningNow(s, c) && s.closures[c].on != s.home
    ensures MovesOn(s, next, t)
  {
    if Busy(s, Functor(c)) {
      var d :| d in s.closures && In(s.closures[d], Functor(c));
      next, t := HandledMoves(s, d);
    } else {
      next, t := Finish(c), s.closures[c].on;
      TodoShrinks(s.closures, c, Doomed(Dispatcher(t)));
    }
  }

  /** Every closure that is not gone, queued at `home` or held there keeps some
      other thread, or the destructor itself, going. */
  lemma ClosureMoves(s: State, c: ClosureId) returns (next: Step, t: ThreadId)
    requires Inv(s) && Destructing(s) && s.threads != {}
    requires c in s.closures && !s.closures[c].Gone? && s.closures[c] != Queued(s.home)
    requires !HeldAtHome(s, s.closures[c])
    ensures MovesOn(s, next, t)
  {
    match s.closures[c]
    case Running(_) => next, t := RunningMoves(s, c);
    case Queued(on) =>
      if Occupied(s, on) {
        var d :| d in s.closures && s.closures[d] == Running(on);
        next, t := RunningMoves(s, d);
      } else {
        next, t := Dispatch(c), on;
        TodoShrinks(s.closures, c, Running(on));
      }
    case _ => next, t := HandledMoves(s, c);
  }

  /** No lost wake-up: while the destructor waits on the unsignaled event, and its
      own thread holds no closure, some other thread can take a step that brings a
      closure closer to its Set. */
  lemma WaitIsNeverStuck(home: ThreadId, threads: set<ThreadId>, steps: seq<Step>)
    returns (next: Step, t: ThreadId)
    requires threads != {} && IsRun(Init(home, threads), steps)
    requires var s := EndOf(Init(home, threads), steps);
             s.phase.InWait? && !s.signaled && HomeFree(s)
    ensures var s := EndOf(Init(home, threads), steps);
            && Enabled(s, next)
            && t != home && RunsOn(s, AgentOf(s, next), t)
            && Todo(TakeStep(s, next).closures) < Todo(s.closures)
  {
    InitInv(home, threads);
    RunKeepsInv(Init(home, threads), steps);
    ThreadsStay(Init(home, threads), steps);
    var s := EndOf(Init(home, threads), steps);
    var c :| c in s.closures && Pendent(s, s.closures[c]);
    next, t := ClosureMoves(s, c);
  }

  lemma {:induction false} ThreadsStay(s: State, steps: seq<Step>)
    requires IsRun(s, steps)
    ensures EndOf(s, steps).threads == s.threads && EndOf(s, steps).home == s.home
    decreases |steps|
  {
    if steps != [] {
      ThreadsStay(TakeStep(s, steps[0]), steps[1..]);
    }
  }

  lemma HeldStays(s: State, step: Step, c: ClosureId)
    requires Inv(s) && Destructing(s) && Enabled(s, step)
    requires c in s.closures && Alive(s.closures[c]) && HeldAtHome(s, s.closures[c])
    ensures var s' := TakeStep(s, step);
            c in s'.closures && s'.closures[c] == s.closures[c] && HeldAtHome(s', s'.closures[c])
  {
  }

  lemma HeldWasHeld(s: State, step: Step, c: ClosureId)
    requires Inv(s) && Destructing(s) && Enabled(s, step)
    requires var s' := TakeStep(s, step);
             c in s'.closures && Alive(s'.closures[c]) && HeldAtHome(s', s'.closures[c])
    ensures c in s.closures && Alive(s.closures[c]) && HeldAtHome(s, s.closures[c])
  {
  }

  /** While the destructor runs, its thread neither takes a closure up nor lets
      one go. */
  lemma HomeFreeStays(s: State, step: Step)
    requires Inv(s) && Destructing(s) && Enabled(s, step)
    ensures HomeFree(TakeStep(s, step)) <==> HomeFree(s)
  {
    var s' := TakeStep(s, step);
    forall c | c in s.closures && Alive(s.closures[c]) && HeldAtHome(s, s.closures[c])
      ensures c in s'.closures && Alive(s'.closures[c]) && HeldAtHome(s', s'.closures[c])
    {
      HeldStays(s, step, c);
    }
    forall c | c in s'.closures && Alive(s'.closures[c]) && HeldAtHome(s', s'.closures[c])
      ensures c in s.closures && Alive(s.closures[c]) && HeldAtHome(s, s.closures[c])
    {
      HeldWasHeld(s, step, c);
    }
  }

  // ---------- Exactly when the destructor can finish ----------

  lemma {:induction false} NeverDone(s: State, more: seq<Step>)
    requires Inv(s) && Destructing(s) && !HomeFree(s) && IsRun(s, more)
    ensures Destructing(EndOf(s, more)) && !HomeFree(EndOf(s, more))
    decreases |more|
  {
    if more != [] {
      var c :| c in s.closures && Alive(s.closures[c]) && HeldAtHome(s, s.closures[c]);
      assert c in AliveSet(s.closures);
      StepKeepsInv(s, more[0]);
      HomeFreeStays(s, more[0]);
      NeverDone(TakeStep(s, more[0]), more[1..]);
    }
  }

  /** Where the destructor is on its way to the next closure cleared, or to its end. */
  function StepsLeft(s: State): nat {
    match s.phase
    case ClearingAll(todo) => 5 + |todo|
    case ClearingOwn => if AliveSet(s.closures) != {} then 0 else 4
    case ClearedOwn => 3
    case InWait => 2
    case _ => 1
  }

  /** Closer to the end: fewer steps of closures, or as many and fewer of the
      destructor. */
  ghost predicate Closer(s: State, s': State) {
    || s'.phase.Destroyed?
    || Todo(s'.closures) < Todo(s.closures)
    || (Todo(s'.closures) == Todo(s.closures) && StepsLeft(s') < StepsLeft(s))
  }

  /** No closure but those queued at `home` is to move. */
  ghost predicate OnlyQueuedAtHome(s: State) {
    forall c :: c in s.closures && !s.closures[c].Gone? && s.closures[c] != Queued(s.home)
                ==> HeldAtHome(s, s.closures[c])
  }

  lemma ClearAllMoves(s: State) returns (next: Step)
    requires s.phase.ClearingAll? && !Busy(s, Destructor)
    ensures Enabled(s, next) && Closer(s, TakeStep(s, next))
  {
    if s.phase.todo == {} {
      next := EndClearAll;
    } else {
      var t :| t in s.phase.todo;
      next := ClearNext(t);
      ClearedTodo(s.closures, t, Destructor);
      assert |s.phase.todo - {t}| < |s.phase.todo|;
    }
  }

  lemma ClearOwnMoves(s: State)
    requires s.phase.ClearingOwn? && HomeFree(s) && OnlyQueuedAtHome(s)
    ensures Closer(s, TakeStep(s, ClearOwn))
  {
    ClearedTodo(s.closures, s.home, Destructor);
    ClearedAlive(s.closures, s.home, Destructor);
    if AliveSet(s.closures) != {} {
      var c :| c in AliveSet(s.closures);
      assert s.closures[c] == Queued(s.home);
    }
  }

  lemma CheckMoves(s: State)
    requires Inv(s) && s.phase.Checking?
    ensures Closer(s, TakeStep(s, Check))
  {
  }

  lemma WaitIsSignaled(s: State)
    requires Inv(s) && s.phase.InWait? && HomeFree(s) && OnlyQueuedAtHome(s)
    ensures s.signaled
  {
    forall c | c in s.closures ensures !Pendent(s, s.closures[c]) {
    }
  }

  /** Then the destructor can go on by itself. */
  lemma DestructorMoves(s: State) returns (next: Step)
    requires Inv(s) && Destructing(s) && HomeFree(s) && OnlyQueuedAtHome(s)
    ensures Enabled(s, next) && Closer(s, TakeStep(s, next))
  {
    forall c | c in s.closures ensures !In(s.closures[c], Destructor) {
    }
    match s.phase
    case ClearingAll(_) => next := ClearAllMoves(s);
    case Checking =>
      next := Check;
      CheckMoves(s);
    case ClearingOwn =>
      next := ClearOwn;
      ClearOwnMoves(s);
    case ClearedOwn => next := BeginWait;
    case InWait =>
      next := Wake;
      WaitIsSignaled(s);
  }

  lemma CanFinish(s: State) returns (more: seq<Step>)
    requires Inv(s) && Destructing(s) && HomeFree(s) && s.threads != {}
    ensures IsRun(s, more) && EndOf(s, more).phase.Destroyed?
    decreases Todo(s.closures), StepsLeft(s)
  {
    var next;
    if OnlyQueuedAtHome(s) {
      next := DestructorMoves(s);
    } else {
      var c :| c in s.closures && !s.closures[c].Gone? && s.closures[c] != Queued(s.home)
               && !HeldAtHome(s, s.closures[c]);
      var t;
      next, t := ClosureMoves(s, c);
    }
    StepKeepsInv(s, next);
    HomeFreeStays(s, next);
    var s' := TakeStep(s, next);
    if s'.phase.Destroyed? {
      more := [next];
    } else {
      var rest := CanFinish(s');
      more := [next] + rest;
      assert more[1..] == rest;
    }
  }

  /** The destructor can finish exactly if its own thread holds no closure. If it
      holds one, as when the invoker is destroyed by one of its own functors, no
      run ever ends the destructor. */
  lemma FinishesIff(home: ThreadId, threads: set<ThreadId>, steps: seq<Step>)
    requires threads != {} && IsRun(Init(home, threads), steps)
    requires Destructing(EndOf(Init(home, threads), steps))
    ensures var s := EndOf(Init(home, threads), steps);
            HomeFree(s) <==> exists more :: IsRun(s, more) && EndOf(s, more).phase.Destroyed?
  {
    InitInv(home, threads);
    RunKeepsInv(Init(home, threads), steps);
    ThreadsStay(Init(home, threads), steps);
    var s := EndOf(Init(home, threads), steps);
    if HomeFree(s) {
      var more := CanFinish(s);
    } else {
      forall more | IsRun(s, more) ensures !EndOf(s, more).phase.Destroyed? {
        NeverDone(s, more);
      }
    }
  }

  /** And that is settled when the destructor begins. */
  lemma {:induction false} HomeFreeFromTheStart(s: State, more: seq<Step>)
    requires Inv(s) && Destructing(s) && IsRun(s, more) && Destructing(EndOf(s, more))
    ensures HomeFree(EndOf(s, more)) <==> HomeFree(s)
    decreases |more|
  {
    if more != [] {
      StepKeepsInv(s, more[0]);
      HomeFreeStays(s, more[0]);
      if TakeStep(s, more[0]).phase.Destroyed? {
        StaysDone(TakeStep(s, more[0]), more[1..]);
      } else {
        HomeFreeFromTheStart(TakeStep(s, more[0]), more[1..]);
      }
    }
  }

  lemma {:induction false} StaysDone(s: State, more: seq<Step>)
    requires IsRun(s, more) && s.phase.Destroyed?
    ensures EndOf(s, more).phase.Destroyed?
    decreases |more|
  {
    if more != [] {
      StaysDone(TakeStep(s, more[0]), more[1..]);
    }
  }

  lemma RunEndsAt(s: State, steps: seq<Step>, end: State)
    requires steps != [] && Enabled(s, steps[0])
    requires IsRun(TakeStep(s, steps[0]), steps[1..]) && EndOf(TakeStep(s, steps[0]), steps[1..]) == end
    ensures IsRun(s, steps) && EndOf(s, steps) == end
  {
  }

  /** The invoker destroyed by its own functor: `home` runs the functor of closure 0,
      which starts the destructor. */
  lemma DestroyedByOwnFunctor(home: ThreadId, threads: set<ThreadId>)
    requires home in threads
    ensures var steps := [Construct(0, Outside), Load(0), Post(0, home), Dispatch(0), BeginDestroying];
            && IsRun(Init(home, threads), steps)
            && var s := EndOf(Init(home, threads), steps);
            && Destructing(s) && !HomeFree(s)
            && forall more :: IsRun(s, more) ==> !EndOf(s, more).phase.Destroyed?
  {
    var steps := [Construct(0, Outside), Load(0), Post(0, home), Dispatch(0), BeginDestroying];
    var s := Init(home, threads);
    var inFunctor := s.(closures := map[0 := Running(home)], pending := 1);
    var s1, s2 := TakeStep(s, steps[0]), s.(closures := map[0 := Checked(Outside)], pending := 1);
    var s3 := s.(closures := map[0 := Queued(home)], pending := 1);
    assert TakeStep(s1, steps[1]) == s2 && TakeStep(s2, steps[2]) == s3 && TakeStep(s3, steps[3]) == inFunctor;
    var end := TakeStep(inFunctor, BeginDestroying);
    assert steps[1..][1..] == steps[2..] && steps[2..][1..] == steps[3..] && steps[3..][1..] == steps[4..];
    RunEndsAt(inFunctor, steps[4..], end);
    RunEndsAt(s3, steps[3..], end);
    RunEndsAt(s2, steps[2..], end);
    RunEndsAt(s1, steps[1..], end);
    RunEndsAt(s, steps, end);
    InitInv(home, threads);
    RunKeepsInv(s, steps);
    assert HeldAtHome(end, end.closures[0]);
    forall more | IsRun(end, more) ensures !EndOf(end, more).phase.Destroyed? {
      NeverDone(end, more);
    }
  }

  /** Tasks that invoke further tasks without end stop doing so: once the
      destructor has started, no further closure passes the `destroying_` test. */
  lemma NoNewPostsWhileDestroying(home: ThreadId, threads: set<ThreadId>, steps: seq<Step>, next: Step)
    requires IsRun(Init(home, threads), steps)
    requires var s := EndOf(Init(home, threads), steps);
             !s.phase.NotStarted? && Enabled(s, next)
    ensures var s := EndOf(Init(home, threads), steps);
            forall c :: c in TakeStep(s, next).closures && TakeStep(s, next).closures[c].Checked?
                        ==> c in s.closures && s.closures[c].Checked?
  {
    InitInv(home, threads);
    RunKeepsInv(Init(home, threads), steps);
  }
}
