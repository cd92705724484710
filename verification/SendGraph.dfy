/** The who-sends-to-whom graph that `ThreadManager` keeps to refuse a `Send`
    that could close a cycle of threads blocked on one another
    (rtc_base/thread.cc). */
module SendGraph {

  /** A `Thread*`; a `std::set<Thread*>` iterates in ascending pointer order. */
  type ThreadPtr = nat

  /** `send_graph_`: every target a thread has sent to. */
  type Graph = map<ThreadPtr, set<ThreadPtr>>

  function Targets(g: Graph, t: ThreadPtr): set<ThreadPtr> {
    if t in g then g[t] else {}
  }

  ghost predicate SameEdges(g: Graph, h: Graph) {
    forall t :: Targets(g, t) == Targets(h, t)
  }

  // ---------- Paths ----------

  ghost predicate IsPath(g: Graph, p: seq<ThreadPtr>) {
    |p| > 0 && forall i :: 0 <= i < |p| - 1 ==> p[i + 1] in Targets(g, p[i])
  }

  ghost predicate IsPathBetween(g: Graph, a: ThreadPtr, b: ThreadPtr, p: seq<ThreadPtr>) {
    IsPath(g, p) && p[0] == a && p[|p| - 1] == b
  }

  ghost predicate Reaches(g: Graph, a: ThreadPtr, b: ThreadPtr) {
    exists p :: IsPathBetween(g, a, b, p)
  }

  /** No path of at least one edge returns to where it started. */
  ghost predicate Acyclic(g: Graph) {
    forall a, p :: IsPathBetween(g, a, a, p) ==> |p| == 1
  }

  lemma ReachesSelf(g: Graph, a: ThreadPtr)
    ensures Reaches(g, a, a)
  {
    assert IsPathBetween(g, a, a, [a]);
  }

  lemma ReachesTrans(g: Graph, a: ThreadPtr, b: ThreadPtr, c: ThreadPtr)
    requires Reaches(g, a, b) && Reaches(g, b, c)
    ensures Reaches(g, a, c)
  {
    var p :| IsPathBetween(g, a, b, p);
    var q :| IsPathBetween(g, b, c, q);
    assert IsPathBetween(g, a, c, p + q[1..]);
  }

  lemma EdgeReaches(g: Graph, a: ThreadPtr, b: ThreadPtr)
    requires b in Targets(g, a)
    ensures Reaches(g, a, b)
  {
    assert IsPathBetween(g, a, b, [a, b]);
  }

  lemma NoWayBack(g: Graph, a: ThreadPtr, b: ThreadPtr)
    requires Acyclic(g) && b in Targets(g, a)
    ensures !Reaches(g, b, a)
  {
    if Reaches(g, b, a) {
      var p :| IsPathBetween(g, b, a, p);
      assert IsPathBetween(g, a, a, [a] + p);
    }
  }

  // ---------- The number of paths leaving a thread ----------

  /** Every thread that the graph mentions. */
  ghost function Threads(g: Graph): set<ThreadPtr> {
    g.Keys + set t, u | t in g && u in g[t] :: u
  }

  ghost function ReachSet(g: Graph, a: ThreadPtr): set<ThreadPtr> {
    set t | t in Threads(g) + {a} && Reaches(g, a, t)
  }

  lemma ReachSetShrinks(g: Graph, a: ThreadPtr, b: ThreadPtr)
    requires Acyclic(g) && b in Targets(g, a)
    ensures ReachSet(g, b) < ReachSet(g, a)
  {
    EdgeReaches(g, a, b);
    forall t | Reaches(g, b, t) ensures Reaches(g, a, t) {
      ReachesTrans(g, a, b, t);
    }
    assert a in ReachSet(g, a) by { ReachesSelf(g, a); }
    NoWayBack(g, a, b);
  }

  function Least(s: set<nat>): (m: nat)
    requires s != {}
    ensures m in s && forall x :: x in s ==> m <= x
  {
    LeastExists(s);
    ghost var least :| IsLeast(s, least);
    assert least in s && forall x :: x in s ==> least <= x;
    var m :| m in s && forall x :: x in s ==> m <= x;
    m
  }

  ghost predicate IsLeast(s: set<nat>, m: nat) {
    m in s && forall x :: x in s ==> m <= x
  }

  lemma {:induction false} LeastExists(s: set<nat>)
    requires s != {}
    ensures exists m :: IsLeast(s, m)
  {
    var y :| y in s;
    if s == {y} {
      assert IsLeast(s, y);
    } else {
      LeastExists(s - {y});
      var m :| IsLeast(s - {y}, m);
      var least := if y <= m then y else m;
      forall x | x in s ensures least <= x {
        assert x == y || x in s - {y};
      }
      assert IsLeast(s, least);
    }
  }

  /** The order in which a `std::set` is iterated. */
  function Ascending(s: set<nat>): (q: seq<nat>)
    ensures forall x :: x in q <==> x in s
    ensures q != [] ==> q[0] !in q[1..]
  {
    if s == {} then [] else
      var m := Least(s);
      [m] + Ascending(s - {m})
  }

  /** How many paths leave `a`, the empty one included. */
  ghost function PathCount(g: Graph, a: ThreadPtr): nat
    requires Acyclic(g)
    decreases |ReachSet(g, a)|, 1, 0
  {
    var succ := Ascending(Targets(g, a));
    assert forall b :: b in succ ==> |ReachSet(g, b)| < |ReachSet(g, a)| by {
      forall b | b in succ ensures |ReachSet(g, b)| < |ReachSet(g, a)| {
        ReachSetShrinks(g, a, b);
        SmallerSet(ReachSet(g, b), ReachSet(g, a));
      }
    }
    1 + PathCounts(g, succ, |ReachSet(g, a)|)
  }

  /** The paths that leave the threads of `ts`; `bound` only serves termination. */
  ghost function PathCounts(g: Graph, ts: seq<ThreadPtr>, bound: nat): nat
    requires Acyclic(g)
    requires forall t :: t in ts ==> |ReachSet(g, t)| < bound
    decreases bound, 0, |ts|
  {
    if ts == [] then 0 else PathCount(g, ts[0]) + PathCounts(g, ts[1..], bound)
  }

  lemma SmallerSet<T>(a: set<T>, b: set<T>)
    requires a < b
    ensures |a| < |b|
  {
    assert b == a + (b - a) && b - a != {};
    assert |b| == |a| + |b - a|;
  }

  ghost function Total(g: Graph, ts: seq<ThreadPtr>): nat
    requires Acyclic(g)
  {
    if ts == [] then 0 else PathCount(g, ts[0]) + Total(g, ts[1..])
  }

  lemma {:induction false} TotalIsPathCounts(g: Graph, ts: seq<ThreadPtr>, bound: nat)
    requires Acyclic(g)
    requires forall t :: t in ts ==> |ReachSet(g, t)| < bound
    ensures PathCounts(g, ts, bound) == Total(g, ts)
  {
    if ts != [] {
      TotalIsPathCounts(g, ts[1..], bound);
    }
  }

  lemma {:induction false} TotalOfConcat(g: Graph, a: seq<ThreadPtr>, b: seq<ThreadPtr>)
    requires Acyclic(g)
    ensures Total(g, a + b) == Total(g, a) + Total(g, b)
  {
    if a == [] {
      assert a + b == b;
    } else {
      assert (a + b)[1..] == a[1..] + b;
      TotalOfConcat(g, a[1..], b);
    }
  }

  lemma PathCountUnfolds(g: Graph, a: ThreadPtr)
    requires Acyclic(g)
    ensures PathCount(g, a) == 1 + Total(g, Ascending(Targets(g, a)))
  {
    var succ := Ascending(Targets(g, a));
    forall b | b in succ ensures |ReachSet(g, b)| < |ReachSet(g, a)| {
      ReachSetShrinks(g, a, b);
      SmallerSet(ReachSet(g, b), ReachSet(g, a));
    }
    TotalIsPathCounts(g, succ, |ReachSet(g, a)|);
  }

  // ---------- It is the number of paths ----------

  /** Exactly the paths that start at `a`. */
  ghost predicate ArePathsFrom(g: Graph, a: ThreadPtr, paths: set<seq<ThreadPtr>>) {
    forall p :: p in paths <==> IsPath(g, p) && p[0] == a
  }

  /** Exactly the paths that start at `a` and go on to one of `ts`. */
  ghost predicate ArePathsThrough(g: Graph, a: ThreadPtr, ts: seq<ThreadPtr>, paths: set<seq<ThreadPtr>>) {
    forall p :: p in paths <==> IsPath(g, p) && p[0] == a && |p| > 1 && p[1] in ts
  }

  ghost predicate Distinct(ts: seq<ThreadPtr>) {
    ts != [] ==> ts[0] !in ts[1..] && Distinct(ts[1..])
  }

  lemma {:induction false} AscendingIsDistinct(s: set<nat>)
    ensures Distinct(Ascending(s))
    decreases s
  {
    if s != {} {
      var m := Least(s);
      assert Ascending(s)[1..] == Ascending(s - {m});
      AscendingIsDistinct(s - {m});
    }
  }

  lemma {:induction false} SizeOfLonger(a: ThreadPtr, paths: set<seq<ThreadPtr>>)
    ensures |set p | p in paths :: [a] + p| == |paths|
  {
    var longer := set p | p in paths :: [a] + p;
    if paths != {} {
      var p :| p in paths;
      SizeOfLonger(a, paths - {p});
      var others := set q | q in paths - {p} :: [a] + q;
      forall q | q in paths - {p} ensures [a] + q != [a] + p {
        assert ([a] + q)[1..] == q && ([a] + p)[1..] == p;
      }
      assert [a] + p !in others;
      assert longer == others + {[a] + p};
    } else {
      assert longer == {};
    }
  }

  /** Finitely many paths leave a thread of an acyclic graph, and `PathCount` is
      their number. */
  lemma {:induction false} PathsFrom(g: Graph, a: ThreadPtr) returns (paths: set<seq<ThreadPtr>>)
    requires Acyclic(g)
    ensures ArePathsFrom(g, a, paths) && |paths| == PathCount(g, a)
    decreases |ReachSet(g, a)|, 1, 0
  {
    var succ := Ascending(Targets(g, a));
    forall b | b in succ ensures |ReachSet(g, b)| < |ReachSet(g, a)| {
      ReachSetShrinks(g, a, b);
      SmallerSet(ReachSet(g, b), ReachSet(g, a));
    }
    AscendingIsDistinct(Targets(g, a));
    var through := PathsThrough(g, a, succ, |ReachSet(g, a)|);
    paths := through + {[a]};
    PathCountUnfolds(g, a);
    assert [a] !in through && IsPath(g, [a]);
    forall p ensures p in paths <==> IsPath(g, p) && p[0] == a {
      if IsPath(g, p) && p[0] == a && |p| == 1 {
        assert p == [a];
      }
    }
  }

  lemma {:induction false} PathsThrough(g: Graph, a: ThreadPtr, ts: seq<ThreadPtr>, bound: nat)
    returns (paths: set<seq<ThreadPtr>>)
    requires Acyclic(g) && Distinct(ts)
    requires forall t :: t in ts ==> t in Targets(g, a) && |ReachSet(g, t)| < bound
    ensures ArePathsThrough(g, a, ts, paths) && |paths| == Total(g, ts)
    decreases bound, 0, |ts|
  {
    if ts == [] {
      paths := {};
    } else {
      var first := PathsFrom(g, ts[0]);
      var rest := PathsThrough(g, a, ts[1..], bound);
      var longer := set p | p in first :: [a] + p;
      SizeOfLonger(a, first);
      LongerPaths(g, a, ts[0], first, longer);
      assert longer * rest == {};
      paths := longer + rest;
    }
  }

  lemma LongerPaths(g: Graph, a: ThreadPtr, t: ThreadPtr, paths: set<seq<ThreadPtr>>, longer: set<seq<ThreadPtr>>)
    requires t in Targets(g, a) && ArePathsFrom(g, t, paths)
    requires longer == set p | p in paths :: [a] + p
    ensures ArePathsThrough(g, a, [t], longer)
  {
    forall q ensures q in longer <==> IsPath(g, q) && q[0] == a && |q| > 1 && q[1] in [t] {
      if q in longer {
        var p :| p in paths && q == [a] + p;
        assert IsPath(g, p) && p[0] == t;
      }
      if IsPath(g, q) && q[0] == a && |q| > 1 && q[1] == t {
        assert IsPath(g, q[1..]) && q == [a] + q[1..];
      }
    }
  }

  lemma SameEdgesSameCycles(g: Graph, h: Graph)
    requires SameEdges(g, h)
    ensures Acyclic(g) <==> Acyclic(h)
  {
    assert forall p :: IsPath(g, p) <==> IsPath(h, p);
    assert forall a, p :: IsPathBetween(g, a, a, p) <==> IsPathBetween(h, a, a, p);
  }

  // ---------- Inserting an edge, removing a thread ----------

  function AddEdge(g: Graph, s: ThreadPtr, t: ThreadPtr): Graph {
    g[s := Targets(g, s) + {t}]
  }

  /** A walk that uses the new edge comes to `s` and leaves from `t` by old edges alone. */
  lemma {:induction false} WalkSplitsAtNewEdge(g: Graph, s: ThreadPtr, t: ThreadPtr, p: seq<ThreadPtr>)
    requires IsPath(AddEdge(g, s, t), p)
    ensures IsPath(g, p) || (Reaches(g, p[0], s) && Reaches(g, t, p[|p| - 1]))
  {
    if |p| > 1 {
      WalkSplitsAtNewEdge(g, s, t, p[1..]);
      var last := p[|p| - 1];
      if p[1] in Targets(g, p[0]) {
        if !IsPath(g, p[1..]) {
          EdgeReaches(g, p[0], p[1]);
          ReachesTrans(g, p[0], p[1], s);
        }
      } else {
        ReachesSelf(g, s);
        if IsPath(g, p[1..]) {
          assert IsPathBetween(g, t, last, p[1..]);
        }
      }
    }
  }

  /** The CHECK refuses exactly the edges that would close a cycle. */
  lemma NewEdgeAcyclicIff(g: Graph, s: ThreadPtr, t: ThreadPtr)
    requires Acyclic(g)
    ensures Acyclic(AddEdge(g, s, t)) <==> !Reaches(g, t, s)
  {
    var h := AddEdge(g, s, t);
    if Reaches(g, t, s) {
      var p :| IsPathBetween(g, t, s, p);
      assert IsPathBetween(h, s, s, [s] + p);
    } else {
      forall a, p | IsPathBetween(h, a, a, p) ensures |p| == 1 {
        WalkSplitsAtNewEdge(g, s, t, p);
        if Reaches(g, a, s) && Reaches(g, t, a) {
          ReachesTrans(g, t, a, s);
        } else {
          assert IsPathBetween(g, a, a, p);
        }
      }
    }
  }

  ghost predicate WithoutThread(g: Graph, h: Graph, thread: ThreadPtr) {
    forall t :: Targets(h, t) == if t == thread then {} else Targets(g, t) - {thread}
  }

  lemma FewerEdgesAcyclic(g: Graph, h: Graph)
    requires Acyclic(g) && forall t :: Targets(h, t) <= Targets(g, t)
    ensures Acyclic(h)
  {
    forall a, p | IsPathBetween(h, a, a, p) ensures |p| == 1 {
      assert IsPathBetween(g, a, a, p);
    }
  }

  /** What the check is for: among any threads each blocked in a `Send`, one is
      blocked on a thread outside the group, so no group of threads can be
      waiting for one another only. */
  lemma NoGroupWaitsOnlyForItself(g: Graph, blocked: set<ThreadPtr>)
    requires Acyclic(g) && blocked != {}
    ensures exists t :: t in blocked && Targets(g, t) !! blocked
  {
    var t :| t in blocked;
    FindUnblocked(g, blocked, t);
  }

  lemma {:induction false} FindUnblocked(g: Graph, blocked: set<ThreadPtr>, t: ThreadPtr)
    requires Acyclic(g) && t in blocked
    ensures exists u :: u in blocked && Targets(g, u) !! blocked
    decreases |ReachSet(g, t)|
  {
    if u :| u in Targets(g, t) && u in blocked {
      ReachSetShrinks(g, t, u);
      SmallerSet(ReachSet(g, u), ReachSet(g, t));
      FindUnblocked(g, blocked, u);
    } else {
      assert Targets(g, t) !! blocked;
    }
  }

  // ---------- The search ----------

  ghost predicate AllReached(g: Graph, a: ThreadPtr, ts: seq<ThreadPtr>) {
    forall t :: t in ts ==> Reaches(g, a, t)
  }

  /** The successors of the first `i` entries have been appended. */
  ghost predicate Expanded(g: Graph, ts: seq<ThreadPtr>, i: nat)
    requires i <= |ts|
  {
    forall k :: 0 <= k < i ==> forall t :: t in Targets(g, ts[k]) ==> t in ts
  }

  /** Replacing an entry by its successors uses up exactly the empty path at it. */
  lemma SearchStep(g: Graph, a: ThreadPtr, ts: seq<ThreadPtr>, i: nat)
    requires Acyclic(g) && i < |ts| && AllReached(g, a, ts) && Expanded(g, ts, i)
    ensures var more := ts + Ascending(Targets(g, ts[i]));
            && AllReached(g, a, more)
            && Expanded(g, more, i + 1)
            && Total(g, more[i + 1..]) + 1 == Total(g, ts[i..])
  {
    var next, rest := Ascending(Targets(g, ts[i])), ts[i + 1..];
    assert ts[i..] == [ts[i]] + rest;
    assert (ts + next)[i + 1..] == rest + next;
    PathCountUnfolds(g, ts[i]);
    TotalOfConcat(g, rest, next);
    forall t | t in next ensures Reaches(g, a, t) {
      EdgeReaches(g, ts[i], t);
      ReachesTrans(g, a, ts[i], t);
    }
  }

  lemma ExpandedIsReachSet(g: Graph, a: ThreadPtr, ts: seq<ThreadPtr>)
    requires |ts| > 0 && ts[0] == a && AllReached(g, a, ts) && Expanded(g, ts, |ts|)
    ensures forall t :: t in ts <==> Reaches(g, a, t)
  {
    forall t | Reaches(g, a, t) ensures t in ts {
      var p :| IsPathBetween(g, a, t, p);
      ExpandedHoldsPath(g, ts, p);
    }
  }

  lemma {:induction false} ExpandedHoldsPath(g: Graph, ts: seq<ThreadPtr>, p: seq<ThreadPtr>)
    requires IsPath(g, p) && p[0] in ts && Expanded(g, ts, |ts|)
    ensures p[|p| - 1] in ts
  {
    if |p| > 1 {
      assert p[1] in Targets(g, p[0]);
      ExpandedHoldsPath(g, ts, p[1..]);
    }
  }

  /** `send_graph_[source].insert(target)` */
  function Inserted(g: Graph, s: ThreadPtr, t: ThreadPtr): Graph {
    var g' := if s in g then g else g[s := {}];
    g'[s := g'[s] + {t}]
  }

  lemma CheckedInsert(g: Graph, h: Graph, s: ThreadPtr, t: ThreadPtr)
    requires Acyclic(g) && SameEdges(g, h)
    ensures Acyclic(h) && SameEdges(h, g)
    ensures SameEdges(Inserted(h, s, t), AddEdge(g, s, t))
    ensures !Reaches(g, t, s) ==> Acyclic(Inserted(h, s, t))
  {
    SameEdgesSameCycles(g, h);
    NewEdgeAcyclicIff(g, s, t);
    assert Targets(g, s) == Targets(h, s);
    forall x ensures Targets(Inserted(h, s, t), x) == Targets(AddEdge(g, s, t), x) {
      assert Targets(g, x) == Targets(h, x);
    }
    SameEdgesSameCycles(Inserted(h, s, t), AddEdge(g, s, t));
  }

  // ---------- The manager ----------

  class ThreadManager {
    var sendGraph: Graph

    constructor ()
      ensures sendGraph == map[] && Acyclic(sendGraph)
    {
      sendGraph := map[];
      new;
      assert forall a, p :: IsPathBetween(sendGraph, a, a, p) && |p| > 1 ==> p[1] in Targets(sendGraph, p[0]);
    }

    /** The search from `target`. It has no visited set and appends a thread once
        per path, which is why it ends only because the graph has no cycles, and
        why the deque's final length is the number of paths that leave `target`. */
    method CollectTargets(target: ThreadPtr) returns (allTargets: seq<ThreadPtr>)
      requires Acyclic(sendGraph)
      modifies this
      ensures forall t :: t in allTargets <==> Reaches(old(sendGraph), target, t)
      ensures exists paths :: ArePathsFrom(old(sendGraph), target, paths) && |allTargets| == |paths|
      ensures SameEdges(old(sendGraph), sendGraph)
    {
      ghost var g := sendGraph;
      allTargets := [target];
      var i := 0;
      ReachesSelf(g, target);
      while i < |allTargets|
        invariant 0 <= i <= |allTargets|
        invariant SameEdges(g, sendGraph)
        invariant |allTargets| > 0 && allTargets[0] == target
        invariant AllReached(g, target, allTargets)
        invariant Expanded(g, allTargets, i)
        invariant i + Total(g, allTargets[i..]) == PathCount(g, target)
        decreases Total(g, allTargets[i..])
      {
        var here := allTargets[i];
        // operator[] creates an empty entry for a thread that never sent.
        if here !in sendGraph {
          sendGraph := sendGraph[here := {}];
        }
        var targets := sendGraph[here];
        assert targets == Targets(g, here);
        SearchStep(g, target, allTargets, i);
        allTargets := allTargets + Ascending(targets);
        i := i + 1;
      }
      ExpandedIsReachSet(g, target, allTargets);
      ghost var paths := PathsFrom(g, target);
    }

    /** Returns whether the CHECK passed, with the deque the search ended on. */
    method RegisterSendAndCheckForCycles(source: ThreadPtr, target: ThreadPtr)
      returns (passed: bool, allTargets: seq<ThreadPtr>)
      requires Acyclic(sendGraph)
      modifies this
      ensures forall t :: t in allTargets <==> Reaches(old(sendGraph), target, t)
      ensures exists paths :: ArePathsFrom(old(sendGraph), target, paths) && |allTargets| == |paths|
      ensures passed <==> !Reaches(old(sendGraph), target, source)
      ensures passed ==> SameEdges(sendGraph, AddEdge(old(sendGraph), source, target))
      ensures !passed ==> SameEdges(sendGraph, old(sendGraph))
      ensures Acyclic(sendGraph)
    {
      ghost var g := sendGraph;
      allTargets := CollectTargets(target);
      passed := source !in allTargets;
      assert passed <==> !Reaches(g, target, source);
      CheckedInsert(g, sendGraph, source, target);
      if passed {
        sendGraph := Inserted(sendGraph, source, target);
      }
    }

    method RemoveFromSendGraph(thread: ThreadPtr)
      requires Acyclic(sendGraph)
      modifies this
      ensures WithoutThread(old(sendGraph), sendGraph, thread)
      ensures Acyclic(sendGraph)
    {
      ghost var g := sendGraph;
      var keys := sendGraph.Keys;
      while keys != {}
        invariant keys <= sendGraph.Keys <= g.Keys
        invariant forall t :: t in keys ==> sendGraph[t] == g[t]
        invariant forall t :: t !in keys ==>
                  Targets(sendGraph, t) == if t == thread then {} else Targets(g, t) - {thread}
        decreases |keys|
      {
        var it :| it in keys;
        if it == thread {
          sendGraph := sendGraph - {it};
        } else {
          sendGraph := sendGraph[it := sendGraph[it] - {thread}];
        }
        keys := keys - {it};
      }
      FewerEdgesAcyclic(g, sendGraph);
    }
  }
}
