/** The message queue of a `Thread` as the source keeps it (rtc_base/thread.cc):
    the delayed messages are a heap in a vector, compacted and re-heaped in place. */
module MessageQueue {
  import opened Basics
  import opened DelayedMessages
  import opened QueueSpec
  import QueueRuns

  class Thread {
    var fPeekKeep: bool
    var msgPeek: Message
    var messages: seq<Message>
    const delayedMessages: PriorityQueue
    var delayedNextNum: nat
    var stop: bool
    /** Not of the object: what the posts in progress on other threads hold. */
    var passed: seq<Posting>
    /** The queue of plain lists that this one stands for. */
    ghost var view: QueueState

    ghost predicate Valid()
      reads this, delayedMessages
    {
      && view.ready == messages
      && view.schedule == delayedMessages.schedule
      && view.peek == (if fPeekKeep then Some(msgPeek) else None)
      && view.stopped == stop
      && view.nextNum == delayedNextNum < NUM_LIMIT
      && view.passed == passed
      && Represents(delayedMessages.c, delayedMessages.schedule, delayedNextNum)
    }

    constructor ()
      ensures Valid() && fresh(delayedMessages) && view == QueueRuns.NEW_QUEUE
    {
      fPeekKeep := false;
      msgPeek := Message(NULLPTR, 0, 0, None);
      messages := [];
      delayedMessages := new PriorityQueue();
      delayedNextNum := 0;
      stop, passed := false, [];
      view := QueueRuns.NEW_QUEUE;
    }

    /** The first step of `Post` and of `DoDelayPost`: the flag, without the lock. */
    method TestFlag(p: Posting) returns (ok: bool)
      requires Valid()
      modifies `passed, `view
      ensures Valid() && view == QueueSpec.TestFlag(old(view), p) && (ok <==> !stop)
    {
      view := QueueSpec.TestFlag(view, p);
      if stop {
        return false;
      }
      passed := passed + [Stamped(p)];
      return true;
    }

    /** The second step, under the lock. */
    method PushPassed(k: nat)
      requires Valid() && Room(view, 1)
      modifies this, delayedMessages
      ensures Valid() && view == QueueSpec.PushPassed(old(view), k)
      ensures delayedNextNum <= old(delayedNextNum) + 1
    {
      if k < |passed| {
        var p := passed[k];
        passed := passed[..k] + passed[k + 1..];
        view := Taken(view, k);
        match p {
          case Ready(m) => Enqueue(m);
          case Delayed(delay, runAt, m) => EnqueueDelayed(delay, runAt, m);
        }
      }
    }

    method Enqueue(m: Message)
      requires Valid()
      modifies `messages, `view
      ensures Valid() && view == Enter(old(view), Ready(m))
    {
      messages := messages + [m];
      view := view.(ready := messages);
    }

    method EnqueueDelayed(delay: int, runAt: int, m: Message)
      requires Valid() && Room(view, 1)
      modifies this, delayedMessages
      ensures Valid() && view == Enter(old(view), Delayed(delay, runAt, m))
      ensures delayedNextNum == old(delayedNextNum) + 1
    {
      var delayed := DelayedMessage(delay, runAt, delayedNextNum, m);
      delayedMessages.Push(delayed);
      delayedNextNum := NextNum(delayedNextNum);
      view := view.(schedule := delayedMessages.schedule, nextNum := delayedNextNum);
    }

    /** A whole `Post` or `DoDelayPost`, with what other threads do between its two
        steps; `k` is its place among the posts on their way by then. */
    method PostAndBetween(p: Posting, between: seq<Op>, k: nat)
      requires Valid() && Room(view, |between| + 1)
      modifies this, delayedMessages
      ensures Valid()
      ensures view == if old(stop) then QueueSpec.TestFlag(old(view), p)
                      else DoOps(old(view), [Test(p)] + between + [Push(k)])
    {
      ghost var q := view;
      var ok := TestFlag(p);
      if ok {
        Interfere(between);
        PushPassed(k);
        QueueRuns.OpsBetween(q, Test(p), between, Push(k));
      }
    }

    method Quit()
      requires Valid()
      modifies this
      ensures Valid() && view == old(view).(stopped := true)
    {
      stop := true;
      view := view.(stopped := true);
    }

    method Restart()
      requires Valid()
      modifies this
      ensures Valid() && view == old(view).(stopped := false)
    {
      stop := false;
      view := view.(stopped := false);
    }

    /** `removed` lists what was taken out: the peeked message, the ready ones in
        order, the delayed ones in the order in which the heap stores them. */
    method ClearInternal(handler: nat, id: nat) returns (removed: seq<Message>)
      requires Valid()
      modifies this, delayedMessages
      ensures Valid() && view == ClearMatching(old(view), handler, id)
      ensures removed == PeekedMatch(old(view), handler, id)
                         + DropReady(old(messages), handler, id) + Drop(old(delayedMessages.c), handler, id)
      ensures multiset(removed) == Removed(old(view), handler, id)
    {
      ghost var was, heap := view, delayedMessages.c;
      removed := ClearStores(handler, id);
      RemovedList(was, heap, handler, id);
    }

    method ClearStores(handler: nat, id: nat) returns (removed: seq<Message>)
      requires Valid()
      modifies this, delayedMessages
      ensures Valid() && view == ClearMatching(old(view), handler, id)
      ensures removed == PeekedMatch(old(view), handler, id)
                         + DropReady(old(messages), handler, id) + Drop(old(delayedMessages.c), handler, id)
    {
      ghost var was := view;
      view := ClearMatching(view, handler, id);
      removed := [];
      if fPeekKeep && msgPeek.Match(handler, id) {
        removed := [msgPeek];
        fPeekKeep := false;
      }
      assert removed == PeekedMatch(was, handler, id);
      var ready := ClearReady(handler, id);
      var dropped := ClearDelayed(handler, id);
      removed := removed + ready + dropped;
    }

    method ClearReady(handler: nat, id: nat) returns (removed: seq<Message>)
      modifies `messages
      ensures messages == KeepReady(old(messages), handler, id)
      ensures removed == DropReady(old(messages), handler, id)
    {
      ghost var was := messages;
      removed := [];
      var it := 0;
      while it < |messages|
        invariant 0 <= it <= |messages|
        invariant messages[..it] + KeepReady(messages[it..], handler, id) == KeepReady(was, handler, id)
        invariant removed + DropReady(messages[it..], handler, id) == DropReady(was, handler, id)
        decreases |messages| - it
      {
        assert messages[it..][1..] == messages[it + 1..];
        if messages[it].Match(handler, id) {
          removed := removed + [messages[it]];
          ghost var rest := messages[it + 1..];
          messages := messages[..it] + messages[it + 1..];
          assert messages[it..] == rest;
        } else {
          assert messages[..it] + [messages[it]] == messages[..it + 1];
          it := it + 1;
        }
      }
      assert messages[..it] == messages && messages[it..] == [];
    }

    method ClearDelayed(handler: nat, id: nat) returns (removed: seq<Message>)
      requires Represents(delayedMessages.c, delayedMessages.schedule, delayedNextNum)
      modifies delayedMessages
      ensures Represents(delayedMessages.c, delayedMessages.schedule, delayedNextNum)
      ensures delayedMessages.schedule == Keep(old(delayedMessages.schedule), handler, id)
      ensures removed == Drop(old(delayedMessages.c), handler, id)
    {
      ClearedHeap(delayedMessages.c, delayedMessages.schedule, delayedNextNum, handler, id);
      removed := CompactDelayed(handler, id);
      delayedMessages.schedule := Keep(delayedMessages.schedule, handler, id);
      delayedMessages.Reheap(delayedNextNum);
    }

    /** Moves the messages to keep to the front of the vector, over the ones to
        drop, and erases what is left behind them. */
    method CompactDelayed(handler: nat, id: nat) returns (dropped: seq<Message>)
      modifies delayedMessages`c
      ensures delayedMessages.c == Keep(old(delayedMessages.c), handler, id)
      ensures dropped == Drop(old(delayedMessages.c), handler, id)
    {
      ghost var heap := delayedMessages.c;
      dropped := [];
      var newEnd, it := 0, 0;
      while it < |delayedMessages.c|
        invariant 0 <= newEnd <= it <= |delayedMessages.c| == |heap|
        invariant delayedMessages.c[..newEnd] == Keep(heap[..it], handler, id)
        invariant delayedMessages.c[it..] == heap[it..]
        invariant dropped == Drop(heap[..it], handler, id)
      {
        var c := delayedMessages.c;
        assert c[it] == c[it..][0] == heap[it];
        assert heap[..it + 1] == heap[..it] + [heap[it]];
        KeepConcat(heap[..it], [heap[it]], handler, id);
        assert c[it + 1..] == c[it..][1..] == heap[it + 1..];
        if c[it].msg.Match(handler, id) {
          dropped := dropped + [c[it].msg];
        } else {
          delayedMessages.c := c[newEnd := c[it]];
          assert delayedMessages.c[..newEnd + 1] == c[..newEnd] + [c[it]];
          newEnd := newEnd + 1;
        }
        it := it + 1;
      }
      assert heap[..it] == heap;
      delayedMessages.c := delayedMessages.c[..newEnd];
    }

    /** What the other threads do while the lock is free. */
    method Interfere(ops: seq<Op>)
      requires Valid() && Room(view, |ops|)
      modifies this, delayedMessages
      ensures Valid() && view == DoOps(old(view), ops)
      ensures delayedNextNum <= old(delayedNextNum) + |ops|
    {
      var i := 0;
      while i < |ops|
        invariant 0 <= i <= |ops|
        invariant Valid() && delayedNextNum <= old(delayedNextNum) + i
        invariant DoOps(view, ops[i..]) == DoOps(old(view), ops)
      {
        assert ops[i..][0] == ops[i] && ops[i..][1..] == ops[i + 1..];
        Do(ops[i]);
        i := i + 1;
      }
    }

    /** One gap in which the lock is free. */
    method PassGap(env: seq<Gap>, used: nat)
      requires Valid() && used < |env| && Room(view, OpsIn(env[used..]))
      modifies this, delayedMessages
      ensures Valid() && view == DoOps(old(view), env[used].ops) && Room(view, OpsIn(env[used + 1..]))
    {
      QueueRuns.OpsInTail(env, used);
      Interfere(env[used].ops);
    }

    method Do(op: Op)
      requires Valid() && Room(view, 1)
      modifies this, delayedMessages
      ensures Valid() && view == DoOp(old(view), op)
      ensures delayedNextNum <= old(delayedNextNum) + 1
    {
      match op {
        case Test(p) => var _ := TestFlag(p);
        case Push(k) => PushPassed(k);
        case Clear(handler, id) => var _ := ClearInternal(handler, id);
        case Quit => Quit();
        case Restart => Restart();
      }
    }

    /** The first locked pass of a round of `Get`: moves the due messages over and
        returns the time to the next one. */
    method PromoteDue(msCurrent: int) returns (cmsDelayNext: int)
      requires Valid()
      modifies `messages, `view, delayedMessages
      ensures Valid() && view == Promote(old(view), msCurrent)
      ensures cmsDelayNext == UntilNext(view, msCurrent)
    {
      cmsDelayNext := FOREVER;
      while delayedMessages.c != []
        invariant Valid() && Promote(view, msCurrent) == Promote(old(view), msCurrent)
        decreases |delayedMessages.c|
      {
        var top := delayedMessages.c[0];
        TopIsFirst(delayedMessages.c, delayedMessages.schedule, delayedNextNum);
        if msCurrent < top.runTime {
          cmsDelayNext := top.runTime - msCurrent;
          break;
        }
        messages := messages + [top.msg];
        delayedMessages.Pop(delayedNextNum);
        view := view.(ready := messages, schedule := delayedMessages.schedule);
      }
      TopIsFirst(delayedMessages.c, delayedMessages.schedule, delayedNextNum);
    }

    /** Takes the first message out of the list; one to dispose of is disposed of. */
    method PopFront() returns (msg: Message)
      requires Valid() && messages != []
      modifies `messages, `view
      ensures Valid() && msg == old(view).ready[0]
      ensures var q := old(view).(ready := old(view).ready[1..]);
              view == if msg.id == MQID_DISPOSE then Dispose(q, msg) else q
    {
      msg := messages[0];
      messages := messages[1..];
      view := view.(ready := messages);
      if msg.id == MQID_DISPOSE {
        view := Dispose(view, msg);
      }
    }

    /** One turn of the inner loop: takes the first message, or disposes of it. */
    method TakeTurn(env: seq<Gap>, used: nat) returns (done: bool, first: Outcome)
      requires Valid() && messages != [] && used <= |env| && Room(view, OpsIn(env[used..]))
      modifies this, delayedMessages
      ensures Valid()
      ensures done ==> DrainedFrom(old(view), env, used) == Drained(view, first, used) && Room(view, OpsIn(env[used..]))
      ensures !done ==> used < |env| && Room(view, OpsIn(env[used + 1..]))
      ensures !done ==> DrainedFrom(old(view), env, used) == DrainedFrom(view, env, used + 1)
    {
      ghost var q := view;
      var msg := PopFront();
      if msg.id != MQID_DISPOSE {
        return true, Got(msg);
      }
      if used == |env| {
        return true, Unfinished;
      }
      DrainStep(q, env, used);
      PassGap(env, used);
      return false, NoMessage;
    }

    /** Takes the first message that is not a dispose message. */
    method TakeReady(env: seq<Gap>) returns (first: Outcome, used: nat)
      requires Valid() && Room(view, OpsIn(env))
      modifies this, delayedMessages
      ensures Valid() && Drained(view, first, used) == Drain(old(view), env)
      ensures used <= |env| && Room(view, OpsIn(env[used..]))
    {
      ghost var goal := Drain(view, env);
      used := 0;
      while messages != []
        invariant Valid() && used <= |env| && Room(view, OpsIn(env[used..]))
        invariant goal == DrainedFrom(view, env, used)
        decreases |env| - used
      {
        var done;
        done, first := TakeTurn(env, used);
        if done {
          return;
        }
        used := used + 1;
      }
      first := NoMessage;
    }

    /** One round of `Get`; returns whether there is to be another one at `next`. */
    method GetOneRound(cmsWait: int, msStart: int, msCurrent: int, env: seq<Gap>)
      returns (outcome: Outcome, waits: seq<int>, used: nat, again: bool, next: int)
      requires Valid() && Room(view, OpsIn(env))
      modifies this, delayedMessages
      ensures Valid() && used <= |env| && Room(view, OpsIn(env[used..]))
      ensures again ==> |waits| == 1
      ensures GetRound(old(view), cmsWait, msStart, msCurrent, env)
              == if again then Again(view, next, waits[0], used) else Done(Fetched(view, outcome, waits, used))
    {
      again, waits, next := false, [], msCurrent;
      view := view.(clock := msCurrent);
      var cmsDelayNext := PromoteDue(msCurrent);
      outcome, used := TakeReady(env);
      if outcome != NoMessage {
        return;
      }

      outcome, waits, used, again, next := WaitOrStop(cmsWait, msStart, msCurrent, cmsDelayNext, used, env);
    }

    /** Which is shorter, the wait asked for or the delay to the next message. */
    method NextWait(cmsWait: int, cmsElapsed: int, cmsDelayNext: int) returns (cmsNext: int)
      ensures cmsNext == WaitTime(cmsWait, cmsElapsed, cmsDelayNext)
    {
      cmsNext := cmsDelayNext;
      if cmsWait != FOREVER {
        cmsNext := if cmsWait - cmsElapsed > 0 then cmsWait - cmsElapsed else 0;
        if cmsDelayNext != FOREVER && cmsDelayNext < cmsNext {
          cmsNext := cmsDelayNext;
        }
      }
    }

    /** The rest of the round, with no message ready: the quit flag and the wait. */
    method WaitOrStop(cmsWait: int, msStart: int, msCurrent: int, cmsDelayNext: int, drained: nat, env: seq<Gap>)
      returns (outcome: Outcome, waits: seq<int>, used: nat, again: bool, next: int)
      requires Valid() && drained <= |env| && Room(view, OpsIn(env[drained..]))
      modifies this, delayedMessages
      ensures Valid() && used <= |env| && Room(view, OpsIn(env[used..]))
      ensures again ==> |waits| == 1
      ensures AfterDrain(old(view), cmsWait, msStart,
                         WaitTime(cmsWait, msCurrent - msStart, cmsDelayNext), drained, env)
              == if again then Again(view, next, waits[0], used) else Done(Fetched(view, outcome, waits, used))
    {
      outcome, waits, used, again, next := Unfinished, [], drained, false, msCurrent;
      if used == |env| {
        return;
      }
      PassGap(env, used);
      used := used + 1;
      if stop {
        outcome := NoMessage;
        return;
      }

      var cmsNext := NextWait(cmsWait, msCurrent - msStart, cmsDelayNext);
      waits := [cmsNext];
      if used == |env| {
        return;
      }
      PassGap(env, used);
      used := used + 1;
      if !env[used - 1].waitOk {
        outcome := NoMessage;
        return;
      }
      next := env[used - 1].now;
      var cmsElapsed := next - msStart;
      if cmsWait != FOREVER && cmsElapsed >= cmsWait {
        view := view.(clock := next);
        outcome := NoMessage;
        return;
      }
      again := true;
    }

    /** `Get` as far as the gaps `env` take it; the clock reads `msStart` at entry. */
    method FetchMessage(cmsWait: int, msStart: int, env: seq<Gap>)
      returns (outcome: Outcome, waits: seq<int>, used: nat)
      requires Valid() && Room(view, OpsIn(env))
      modifies this, delayedMessages
      ensures Valid()
      ensures Fetched(view, outcome, waits, used) == Fetch(old(view), cmsWait, msStart, msStart, env)
    {
      ghost var goal := Fetch(view, cmsWait, msStart, msStart, env);
      var msCurrent, rest, again := msStart, env, true;
      waits, used, outcome := [], 0, Unfinished;
      while again
        invariant Valid() && Room(view, OpsIn(rest))
        invariant again ==> goal == After(waits, used, Fetch(view, cmsWait, msStart, msCurrent, rest))
        invariant !again ==> goal == Fetched(view, outcome, waits, used)
        decreases again, |rest|
      {
        var more, n, next;
        ghost var q, seen, spent, time, env0 := view, waits, used, msCurrent, rest;
        outcome, more, n, again, next := GetOneRound(cmsWait, msStart, msCurrent, rest);
        waits, used, msCurrent, rest := waits + more, used + n, next, rest[n..];
        FetchGoesOn(q, cmsWait, msStart, time, env0, seen, spent);
        assert again ==> more == [more[0]];
      }
    }

    method Get(cmsWait: int, msStart: int, env: seq<Gap>) returns (outcome: Outcome, waits: seq<int>, used: nat)
      requires Valid() && Room(view, OpsIn(env))
      modifies this, delayedMessages
      ensures Valid()
      ensures Fetched(view, outcome, waits, used) == QueueSpec.Get(old(view), cmsWait, msStart, env)
    {
      if fPeekKeep {
        outcome, waits, used := Got(msgPeek), [], 0;
        fPeekKeep := false;
        view := view.(peek := None);
      } else {
        outcome, waits, used := FetchMessage(cmsWait, msStart, env);
      }
      if outcome.Got? {
        view := HandOver(view, outcome.m);
      }
    }

    method Peek(cmsWait: int, msStart: int, env: seq<Gap>) returns (outcome: Outcome, waits: seq<int>, used: nat)
      requires Valid() && Room(view, OpsIn(env))
      modifies this, delayedMessages
      ensures Valid()
      ensures Fetched(view, outcome, waits, used) == QueueSpec.Peek(old(view), cmsWait, msStart, env)
    {
      if fPeekKeep {
        outcome, waits, used := Got(msgPeek), [], 0;
        return;
      }
      outcome, waits, used := FetchMessage(cmsWait, msStart, env);
      if outcome.Got? {
        msgPeek := outcome.m;
        fPeekKeep := true;
        view := view.(peek := Some(msgPeek));
      }
    }
  }

  function PeekedMatch(q: QueueState, handler: nat, id: nat): seq<Message> {
    if PeekMatches(q, handler, id) then [q.peek.value] else []
  }

  // ---------- Steps of Get ----------

  function DrainedFrom(q: QueueState, env: seq<Gap>, used: nat): Drained
    requires used <= |env|
  {
    var d := Drain(q, env[used..]);
    d.(used := used + d.used)
  }

  lemma DrainStep(q: QueueState, env: seq<Gap>, used: nat)
    requires used < |env| && q.ready != [] && q.ready[0].id == MQID_DISPOSE
    ensures var p := DoOps(Dispose(q.(ready := q.ready[1..]), q.ready[0]), env[used].ops);
            DrainedFrom(q, env, used) == DrainedFrom(p, env, used + 1)
  {
    assert env[used..][0] == env[used] && env[used..][1..] == env[used + 1..];
  }

  lemma FetchGoesOn(q: QueueState, wait: int, start: int, now: int, env: seq<Gap>, seen: seq<int>, spent: nat)
    ensures After(seen, spent, Fetch(q, wait, start, now, env)) ==
            match GetRound(q, wait, start, now, env)
            case Done(r) => Fetched(r.q, r.outcome, seen + r.waits, spent + r.used)
            case Again(p, later, w, used) => After(seen + [w], spent + used, Fetch(p, wait, start, later, env[used..]))
  {
    match GetRound(q, wait, start, now, env)
    case Done(r) =>
    case Again(p, later, w, used) => AfterAfter(seen, spent, [w], used, Fetch(p, wait, start, later, env[used..]));
  }

  lemma AfterAfter(waits: seq<int>, used: nat, more: seq<int>, n: nat, r: Fetched)
    ensures After(waits, used, After(more, n, r)) == After(waits + more, used + n, r)
  {
    assert waits + (more + r.waits) == waits + more + r.waits;
  }

  // ---------- The order in which the heap stores messages does not matter ----------

  lemma ClearedHeap(c: seq<DelayedMessage>, s: seq<DelayedMessage>, bound: nat, handler: nat, id: nat)
    requires Represents(c, s, bound)
    ensures Numbered(Keep(s, handler, id), bound)
    ensures multiset(Keep(c, handler, id)) == multiset(Keep(s, handler, id))
  {
    KeepMembers(c, handler, id);
    KeepMembers(s, handler, id);
    KeepNumbered(s, bound, handler, id);
  }

  /** The list of removed messages holds what the ledger counts as cleared. */
  lemma RemovedList(q: QueueState, c: seq<DelayedMessage>, handler: nat, id: nat)
    requires multiset(c) == multiset(q.schedule)
    ensures multiset(PeekedMatch(q, handler, id) + DropReady(q.ready, handler, id) + Drop(c, handler, id))
            == Removed(q, handler, id)
  {
    SameDropBag(c, q.schedule, handler, id);
    BagOfDropped(c, handler, id);
  }

  lemma {:induction false} DropBagConcat(a: seq<DelayedMessage>, b: seq<DelayedMessage>, handler: nat, id: nat)
    ensures DropBag(a + b, handler, id) == DropBag(a, handler, id) + DropBag(b, handler, id)
  {
    if a == [] {
      assert a + b == b;
    } else {
      assert (a + b)[1..] == a[1..] + b;
      DropBagConcat(a[1..], b, handler, id);
    }
  }

  lemma {:induction false} SameDropBag(a: seq<DelayedMessage>, b: seq<DelayedMessage>, handler: nat, id: nat)
    requires multiset(a) == multiset(b)
    ensures DropBag(a, handler, id) == DropBag(b, handler, id)
  {
    if a == [] {
      assert |multiset(b)| == 0;
    } else {
      assert a[0] in multiset(b);
      var k :| 0 <= k < |b| && b[k] == a[0];
      var rest := b[..k] + b[k + 1..];
      assert b == b[..k] + ([a[0]] + b[k + 1..]);
      DropBagConcat(b[..k], [a[0]] + b[k + 1..], handler, id);
      DropBagConcat(b[..k], b[k + 1..], handler, id);
      assert ([a[0]] + b[k + 1..])[1..] == b[k + 1..];
      SameWithoutFirst(a, b, k);
      SameDropBag(a[1..], rest, handler, id);
    }
  }

  lemma SameWithoutFirst<T>(a: seq<T>, b: seq<T>, k: nat)
    requires a != [] && k < |b| && b[k] == a[0] && multiset(a) == multiset(b)
    ensures multiset(a[1..]) == multiset(b[..k] + b[k + 1..])
  {
    assert a == [a[0]] + a[1..];
    assert b == b[..k] + [b[k]] + b[k + 1..];
    assert multiset(a[1..]) == multiset(a) - multiset{a[0]};
    assert multiset(b[..k] + b[k + 1..]) == multiset(b) - multiset{a[0]};
  }

  lemma {:induction false} BagOfDropped(s: seq<DelayedMessage>, handler: nat, id: nat)
    ensures multiset(Drop(s, handler, id)) == DropBag(s, handler, id)
  {
    if s != [] {
      BagOfDropped(s[1..], handler, id);
    }
  }
}
