/** The priority queue of delayed messages (rtc_base/thread.h): a binary heap in
    a vector, and the schedule it stands for, a list sorted by run time and then
    by message number. */
module DelayedMessages {

  import opened Basics

  const NULLPTR: nat := 0
  const MQID_ANY: nat := 0xFFFF_FFFF
  const MQID_DISPOSE: nat := 0xFFFF_FFFE

  /** `due` is a history annotation that the source does not keep: the run time
      the message was posted with, or None for one posted without a delay. */
  datatype Message = Message(phandler: nat, id: nat, pdata: nat, due: Option<int>) {
    /** No handler stands for any, and so does one identifier. */
    predicate Match(handler: nat, msgId: nat)
      ensures Match(handler, msgId) <==> handler in {NULLPTR, phandler} && msgId in {MQID_ANY, id}
    {
      (handler == NULLPTR || handler == phandler) && (msgId == MQID_ANY || msgId == id)
    }
  }

  datatype DelayedMessage = DelayedMessage(delay: int, runTime: int, num: nat, msg: Message)

  /** `operator<`: the greatest message under it is the one to run first. */
  predicate Less(a: DelayedMessage, b: DelayedMessage) {
    b.runTime < a.runTime || (b.runTime == a.runTime && b.num < a.num)
  }

  predicate RunsBefore(a: DelayedMessage, b: DelayedMessage) {
    Less(b, a)
  }

  // ---------- The schedule ----------

  /** Strictly: no two messages have both the same run time and the same number. */
  ghost predicate Sorted(s: seq<DelayedMessage>) {
    s != [] ==> (forall x :: x in s[1..] ==> RunsBefore(s[0], x)) && Sorted(s[1..])
  }

  /** The messages of a queue that has given out the numbers below `bound`. */
  ghost predicate Numbered(s: seq<DelayedMessage>, bound: nat) {
    Sorted(s) && forall x :: x in s ==> x.num < bound
  }

  function InsertByTime(x: DelayedMessage, s: seq<DelayedMessage>): seq<DelayedMessage> {
    if s == [] then [x]
    else if RunsBefore(x, s[0]) then [x] + s
    else [s[0]] + InsertByTime(x, s[1..])
  }

  lemma {:induction false} InsertMembers(x: DelayedMessage, s: seq<DelayedMessage>)
    ensures multiset(InsertByTime(x, s)) == multiset(s) + multiset{x}
    ensures forall y :: y in InsertByTime(x, s) <==> y == x || y in s
  {
    if s != [] && !RunsBefore(x, s[0]) {
      assert s == [s[0]] + s[1..];
      InsertMembers(x, s[1..]);
    }
  }

  lemma {:induction false} InsertKeepsSorted(x: DelayedMessage, s: seq<DelayedMessage>)
    requires Sorted(s) && forall y :: y in s ==> y.num != x.num
    ensures Sorted(InsertByTime(x, s))
  {
    if s != [] {
      if RunsBefore(x, s[0]) {
        assert ([x] + s)[1..] == s;
        assert forall y :: y in s ==> y == s[0] || y in s[1..];
      } else {
        InsertKeepsSorted(x, s[1..]);
        InsertMembers(x, s[1..]);
        assert InsertByTime(x, s)[1..] == InsertByTime(x, s[1..]);
      }
    }
  }

  lemma InsertNumbered(x: DelayedMessage, s: seq<DelayedMessage>)
    requires Numbered(s, x.num)
    ensures Numbered(InsertByTime(x, s), x.num + 1)
  {
    InsertKeepsSorted(x, s);
    InsertMembers(x, s);
  }

  // ---------- Filtering ----------

  function Keep(c: seq<DelayedMessage>, handler: nat, id: nat): seq<DelayedMessage> {
    if c == [] then []
    else if c[0].msg.Match(handler, id) then Keep(c[1..], handler, id)
    else [c[0]] + Keep(c[1..], handler, id)
  }

  function Drop(c: seq<DelayedMessage>, handler: nat, id: nat): seq<Message> {
    if c == [] then []
    else if c[0].msg.Match(handler, id) then [c[0].msg] + Drop(c[1..], handler, id)
    else Drop(c[1..], handler, id)
  }

  lemma {:induction false} KeepConcat(a: seq<DelayedMessage>, b: seq<DelayedMessage>, handler: nat, id: nat)
    ensures Keep(a + b, handler, id) == Keep(a, handler, id) + Keep(b, handler, id)
    ensures Drop(a + b, handler, id) == Drop(a, handler, id) + Drop(b, handler, id)
  {
    if a == [] {
      assert a + b == b;
    } else {
      assert (a + b)[1..] == a[1..] + b;
      KeepConcat(a[1..], b, handler, id);
    }
  }

  lemma {:induction false} KeepMembers(c: seq<DelayedMessage>, handler: nat, id: nat)
    ensures forall x :: multiset(Keep(c, handler, id))[x] ==
                        if x.msg.Match(handler, id) then 0 else multiset(c)[x]
  {
    if c != [] {
      assert c == [c[0]] + c[1..];
      KeepMembers(c[1..], handler, id);
    }
  }

  lemma {:induction false} KeepNumbered(s: seq<DelayedMessage>, bound: nat, handler: nat, id: nat)
    requires Numbered(s, bound)
    ensures Numbered(Keep(s, handler, id), bound)
    ensures forall x :: x in Keep(s, handler, id) ==> x in s
  {
    if s != [] {
      KeepNumbered(s[1..], bound, handler, id);
      assert ([s[0]] + Keep(s[1..], handler, id))[1..] == Keep(s[1..], handler, id);
    }
  }

  // ---------- The heap ----------

  function Parent(i: nat): nat
    requires i > 0
  {
    (i - 1) / 2
  }

  ghost predicate InOrder(c: seq<DelayedMessage>, j: nat)
    requires 0 < j < |c|
  {
    !Less(c[Parent(j)], c[j])
  }

  /** The heap order holds between every node from `k` on and its children. */
  ghost predicate HeapFrom(c: seq<DelayedMessage>, k: nat) {
    forall j: nat :: 0 < j < |c| && k <= Parent(j) ==> InOrder(c, j)
  }

  ghost predicate IsHeap(c: seq<DelayedMessage>) {
    HeapFrom(c, 0)
  }

  lemma {:induction false} TopIsGreatest(c: seq<DelayedMessage>, i: nat)
    requires IsHeap(c) && i < |c|
    ensures !Less(c[0], c[i])
  {
    if i > 0 {
      TopIsGreatest(c, Parent(i));
      assert InOrder(c, i);
    }
  }

  /** A heap `c` stands for the sorted list `s` of the same messages. */
  ghost predicate Represents(c: seq<DelayedMessage>, s: seq<DelayedMessage>, bound: nat) {
    IsHeap(c) && Numbered(s, bound) && multiset(c) == multiset(s)
  }

  /** The top of the heap is the head of the schedule. */
  lemma TopIsFirst(c: seq<DelayedMessage>, s: seq<DelayedMessage>, bound: nat)
    requires Represents(c, s, bound)
    ensures c == [] <==> s == []
    ensures c != [] ==> s[0] == c[0]
  {
    assert |c| == |multiset(c)| && |s| == |multiset(s)|;
    if c != [] {
      assert c[0] in multiset(s) && s[0] in multiset(c);
      var i :| 0 <= i < |c| && c[i] == s[0];
      TopIsGreatest(c, i);
      assert forall y :: y in s ==> y == s[0] || y in s[1..];
    }
  }

  function Swap(c: seq<DelayedMessage>, i: nat, j: nat): (r: seq<DelayedMessage>)
    requires i < |c| && j < |c|
    ensures multiset(r) == multiset(c)
  {
    c[i := c[j]][j := c[i]]
  }

  ghost predicate ChildrenAtMost(c: seq<DelayedMessage>, p: nat, i: nat)
    requires p < |c|
  {
    && (2 * i + 1 < |c| ==> !Less(c[p], c[2 * i + 1]))
    && (2 * i + 2 < |c| ==> !Less(c[p], c[2 * i + 2]))
  }

  /** Only node `i` may be too great for its parent. */
  ghost predicate HeapAbove(c: seq<DelayedMessage>, i: nat)
    requires i < |c|
  {
    && (forall j: nat :: 0 < j < |c| && j != i ==> InOrder(c, j))
    && (i > 0 ==> ChildrenAtMost(c, Parent(i), i))
  }

  lemma RiseStep(c: seq<DelayedMessage>, i: nat)
    requires 0 < i < |c| && HeapAbove(c, i) && Less(c[Parent(i)], c[i])
    ensures HeapAbove(Swap(c, Parent(i), i), Parent(i))
  {
    var p, d := Parent(i), Swap(c, Parent(i), i);
    forall j: nat | 0 < j < |d| && j != p ensures InOrder(d, j) {
      assert j != i ==> InOrder(c, j);
      assert Parent(j) == i ==> j == 2 * i + 1 || j == 2 * i + 2;
    }
    if p > 0 {
      assert InOrder(c, p);
      assert 2 * p + 1 < |c| && 2 * p + 1 != i ==> InOrder(c, 2 * p + 1);
      assert 2 * p + 2 < |c| && 2 * p + 2 != i ==> InOrder(c, 2 * p + 2);
    }
  }

  lemma HeapAboveDone(c: seq<DelayedMessage>, i: nat)
    requires i < |c| && HeapAbove(c, i) && (i == 0 || InOrder(c, i))
    ensures IsHeap(c)
  {
  }

  /** From `k` on, only node `i` may be too small for its children. */
  ghost predicate HeapBelow(c: seq<DelayedMessage>, k: nat, i: nat) {
    && (forall j: nat :: 0 < j < |c| && k <= Parent(j) && Parent(j) != i ==> InOrder(c, j))
    && (k < i < |c| ==> k <= Parent(i) && ChildrenAtMost(c, Parent(i), i))
  }

  lemma SinkStep(c: seq<DelayedMessage>, k: nat, i: nat, child: nat)
    requires k <= i < child < |c| && i == Parent(child) && HeapBelow(c, k, i)
    requires Less(c[i], c[child]) && ChildrenAtMost(c, child, i)
    ensures HeapBelow(Swap(c, i, child), k, child)
  {
    var d := Swap(c, i, child);
    forall j: nat | 0 < j < |d| && k <= Parent(j) && Parent(j) != child ensures InOrder(d, j) {
      assert Parent(j) != i ==> InOrder(c, j);
      assert Parent(j) == i ==> j == 2 * i + 1 || j == 2 * i + 2;
    }
    assert 2 * child + 1 < |c| ==> Parent(2 * child + 1) == child && InOrder(c, 2 * child + 1);
    assert 2 * child + 2 < |c| ==> Parent(2 * child + 2) == child && InOrder(c, 2 * child + 2);
  }

  lemma HeapBelowDone(c: seq<DelayedMessage>, k: nat, i: nat)
    requires k <= i && HeapBelow(c, k, i) && (i < |c| ==> ChildrenAtMost(c, i, i))
    ensures HeapFrom(c, k)
  {
    forall j: nat | 0 < j < |c| && k <= Parent(j) ensures InOrder(c, j) {
      assert Parent(j) == i ==> j == 2 * i + 1 || j == 2 * i + 2;
    }
  }

  /** `std::priority_queue<DelayedMessage>` with access to its vector, and the
      schedule it stands for. */
  class PriorityQueue {
    var c: seq<DelayedMessage>
    ghost var schedule: seq<DelayedMessage>

    constructor ()
      ensures c == [] && schedule == []
    {
      c, schedule := [], [];
    }

    method Push(x: DelayedMessage)
      requires Represents(c, schedule, x.num)
      modifies this
      ensures Represents(c, schedule, x.num + 1)
      ensures schedule == InsertByTime(x, old(schedule))
    {
      ghost var was := c;
      c := c + [x];
      var i := |c| - 1;
      forall j: nat | 0 < j < |was| ensures InOrder(c, j) {
        assert InOrder(was, j);
      }
      while i > 0 && Less(c[Parent(i)], c[i])
        invariant 0 <= i < |c|
        invariant multiset(c) == multiset(was) + multiset{x}
        invariant HeapAbove(c, i)
        modifies `c
      {
        RiseStep(c, i);
        c := Swap(c, Parent(i), i);
        i := Parent(i);
      }
      HeapAboveDone(c, i);
      InsertNumbered(x, schedule);
      InsertMembers(x, schedule);
      schedule := InsertByTime(x, schedule);
    }

    /** Sinks the node at `k` into the heaps below it. */
    method SiftDown(k: nat)
      requires HeapFrom(c, k + 1)
      modifies `c
      ensures HeapFrom(c, k) && multiset(c) == multiset(old(c))
    {
      var i := k;
      while 2 * i + 1 < |c|
        invariant k <= i
        invariant multiset(c) == multiset(old(c))
        invariant HeapBelow(c, k, i)
        decreases |c| - i
      {
        var child := 2 * i + 1;
        if child + 1 < |c| && Less(c[child], c[child + 1]) {
          child := child + 1;
        }
        if !Less(c[i], c[child]) {
          break;
        }
        SinkStep(c, k, i, child);
        c := Swap(c, i, child);
        i := child;
      }
      HeapBelowDone(c, k, i);
    }

    method Pop(ghost bound: nat)
      requires Represents(c, schedule, bound) && c != []
      modifies this
      ensures Represents(c, schedule, bound)
      ensures old(schedule) == [old(c)[0]] + schedule
    {
      TopIsFirst(c, schedule, bound);
      Popped(c, schedule, bound);
      var last := |c| - 1;
      c := Swap(c, 0, last)[..last];
      schedule := schedule[1..];
      SiftDown(0);
    }

    /** `make_heap` over the whole vector. */
    method Reheap(ghost bound: nat)
      requires Numbered(schedule, bound) && multiset(c) == multiset(schedule)
      modifies `c
      ensures Represents(c, schedule, bound)
    {
      var k := |c| / 2;
      while k > 0
        invariant 0 <= k && HeapFrom(c, k) && multiset(c) == multiset(old(c))
      {
        k := k - 1;
        SiftDown(k);
      }
    }
  }

  /** Moving the last message over the first leaves the rest of the schedule. */
  lemma Popped(c: seq<DelayedMessage>, s: seq<DelayedMessage>, bound: nat)
    requires Represents(c, s, bound) && c != [] && s != [] && s[0] == c[0]
    ensures var d := Swap(c, 0, |c| - 1)[..|c| - 1];
            HeapFrom(d, 1) && Numbered(s[1..], bound) && multiset(d) == multiset(s[1..])
  {
    var d := Swap(c, 0, |c| - 1)[..|c| - 1];
    WithoutFirst(c, s, d);
    forall j: nat | 0 < j < |d| && 1 <= Parent(j) ensures InOrder(d, j) {
      assert InOrder(c, j);
    }
  }

  lemma WithoutFirst<T>(c: seq<T>, s: seq<T>, d: seq<T>)
    requires c != [] && s != [] && s[0] == c[0] && multiset(c) == multiset(s)
    requires d == c[0 := c[|c| - 1]][..|c| - 1]
    ensures multiset(d) == multiset(s[1..])
  {
    assert s == [s[0]] + s[1..];
    assert c == [c[0]] + c[1..];
    assert multiset(s[1..]) == multiset(s) - multiset{s[0]} == multiset(c[1..]);
    if |c| > 1 {
      var middle, last := c[1..|c| - 1], c[|c| - 1];
      assert d == [last] + middle;
      assert c[1..] == middle + [last];
    }
  }
}
