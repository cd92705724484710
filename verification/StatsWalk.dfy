/** The statistics graph of webrtc-client/p2p/adapter-latest.js: `walkStats` and
    `filterStats`, which collect all that an RTP stat of a track leads to. */
module StatsWalk {

  import opened Basics

  datatype PropertyValue = Text(text: string) | List(items: seq<string>) | Other

  datatype Property = Property(name: string, value: PropertyValue)

  /** A stat: its id, its type, and its own properties in their order. */
  datatype Stat = Stat(id: string, kind: string, properties: seq<Property>) {

    ghost predicate ListsIds() {
      forall i :: 0 <= i < |properties| && EndsWith(properties[i].name, "Ids") ==> properties[i].value.List?
    }

    /** The value of a property, as far as it is text. */
    function TextOf(name: string): Option<string> {
      TextIn(properties, name)
    }
  }

  /** A stats report: a Map from ids to stats, with the order of its keys. */
  datatype Report = Report(order: seq<string>, entries: map<string, Stat>) {

    /** Keyed by id, each key once in the order; a name in `Ids` is of a list. */
    ghost predicate Valid() {
      && (forall k :: k in order <==> k in entries)
      && (forall k :: k in entries ==> entries[k].id == k && entries[k].ListsIds())
    }

    function Get(id: string): Option<Stat> {
      if id in entries then Some(entries[id]) else None
    }
  }

  predicate EndsWith(s: string, suffix: string) {
    |s| >= |suffix| && s[|s| - |suffix|..] == suffix
  }

  function TextIn(properties: seq<Property>, name: string): Option<string> {
    if properties == [] then None
    else if properties[0].name == name then
      (if properties[0].value.Text? then Some(properties[0].value.text) else None)
    else TextIn(properties[1..], name)
  }

  /** A property is the first of its name, and counts as text if it is. */
  lemma {:induction false} FirstNamed(properties: seq<Property>, name: string, k: nat)
    requires k <= |properties| && forall i :: 0 <= i < k ==> properties[i].name != name
    requires k < |properties| ==> properties[k].name == name
    ensures TextIn(properties, name) ==
              if k < |properties| && properties[k].value.Text? then Some(properties[k].value.text) else None
  {
    if k > 0 {
      FirstNamed(properties[1..], name, k - 1);
    }
  }

  // ---------- The graph ----------

  /** The ids a property refers to. */
  function LinksOf(p: Property): seq<string> {
    if EndsWith(p.name, "Id") then (if p.value.Text? then [p.value.text] else [])
    else if EndsWith(p.name, "Ids") && p.value.List? then p.value.items
    else []
  }

  /** A name ending in `Id` refers to its text, one ending in `Ids` to each of a list. */
  lemma LinksIff(p: Property, b: string)
    ensures b in LinksOf(p) <==>
              || (p.value == Text(b) && exists base :: p.name == base + "Id")
              || (p.value.List? && b in p.value.items && exists base :: p.name == base + "Ids")
  {
    EndsIff(p.name, "Id");
    EndsIff(p.name, "Ids");
    if EndsWith(p.name, "Id") {
      assert p.name[|p.name| - 1] == "Id"[1] != "Ids"[2];
    }
  }

  lemma EndsIff(s: string, suffix: string)
    ensures EndsWith(s, suffix) <==> exists base :: s == base + suffix
  {
    if EndsWith(s, suffix) {
      assert s == s[..|s| - |suffix|] + suffix;
    }
  }

  /** The stat `a` refers to the stat `b`, both in the report. */
  ghost predicate Linked(stats: Report, a: string, b: string) {
    a in stats.entries && b in stats.entries
    && exists i :: 0 <= i < |stats.entries[a].properties| && b in LinksOf(stats.entries[a].properties[i])
  }

  ghost predicate IsChain(stats: Report, path: seq<string>) {
    && |path| > 0 && path[0] in stats.entries
    && forall i :: 0 <= i < |path| - 1 ==> Linked(stats, path[i], path[i + 1])
  }

  ghost predicate LeadsTo(stats: Report, a: string, b: string) {
    exists path: seq<string> :: IsChain(stats, path) && path[0] == a && path[|path| - 1] == b
  }

  lemma ReachesItself(stats: Report, a: string)
    requires a in stats.entries
    ensures LeadsTo(stats, a, a)
  {
    assert IsChain(stats, [a]);
  }

  lemma ReachesOverLink(stats: Report, a: string, b: string, c: string)
    requires Linked(stats, a, b) && LeadsTo(stats, b, c)
    ensures LeadsTo(stats, a, c)
  {
    var path :| IsChain(stats, path) && path[0] == b && path[|path| - 1] == c;
    var longer := [a] + path;
    forall i | 0 <= i < |longer| - 1 ensures Linked(stats, longer[i], longer[i + 1]) {
      if i > 0 {
        assert Linked(stats, path[i - 1], path[i]);
      }
    }
    assert IsChain(stats, longer) && longer[|longer| - 1] == c;
  }

  /** All that the stats in `s` refer to is in `all`. */
  ghost predicate Closed(stats: Report, s: set<string>, all: set<string>) {
    forall a, b :: a in s && Linked(stats, a, b) ==> b in all
  }

  lemma {:induction false} ClosedHoldsPaths(stats: Report, s: set<string>, path: seq<string>)
    requires Closed(stats, s, s) && IsChain(stats, path) && path[0] in s
    ensures path[|path| - 1] in s
  {
    if |path| > 1 {
      assert Linked(stats, path[0], path[1]);
      forall i | 0 <= i < |path[1..]| - 1 ensures Linked(stats, path[1..][i], path[1..][i + 1]) {
        assert Linked(stats, path[i + 1], path[i + 2]);
      }
      ClosedHoldsPaths(stats, s, path[1..]);
    }
  }

  lemma ClosedHoldsReachable(stats: Report, s: set<string>, a: string, b: string)
    requires Closed(stats, s, s) && a in s && LeadsTo(stats, a, b)
    ensures b in s
  {
    var path :| IsChain(stats, path) && path[0] == a && path[|path| - 1] == b;
    ClosedHoldsPaths(stats, s, path);
  }

  // ---------- The walk ----------

  /** The Map that the walk fills; `order` is the order of insertion. */
  class ResultSet {
    var order: seq<string>
    var entries: map<string, Stat>

    ghost predicate Valid(stats: Report)
      reads this
    {
      && entries.Keys <= stats.entries.Keys
      && (forall k :: k in entries ==> entries[k] == stats.entries[k])
      && (forall k :: k in order <==> k in entries)
      && (forall i, j :: 0 <= i < j < |order| ==> order[i] != order[j])
    }

    constructor ()
      ensures order == [] && entries == map[]
    {
      order, entries := [], map[];
    }

    /** `set` of a new key. */
    method Set(stats: Report, stat: Stat)
      requires stats.Valid() && Valid(stats) && stats.Get(stat.id) == Some(stat) && stat.id !in entries
      modifies this
      ensures Valid(stats) && entries == old(entries)[stat.id := stat] && order == old(order) + [stat.id]
    {
      order, entries := order + [stat.id], entries[stat.id := stat];
    }
  }

  /** A walk from `root` has turned the keys `before` into `after`: it added only
      what `root` reaches, and with each added stat all that it refers to. */
  ghost predicate Walked(stats: Report, root: string, before: set<string>, after: set<string>) {
    && before <= after
    && (forall k :: k in after && k !in before ==> LeadsTo(stats, root, k))
    && Closed(stats, after - before, after)
  }

  lemma WalkedTwice(stats: Report, root: string, a: set<string>, b: set<string>, c: set<string>)
    requires Walked(stats, root, a, b) && Walked(stats, root, b, c)
    ensures Walked(stats, root, a, c)
  {
    forall x, y | x in c - a && Linked(stats, x, y) ensures y in c {
      if x in b {
        assert x in b - a;
      } else {
        assert x in c - b;
      }
    }
  }

  lemma WalkedFromLink(stats: Report, root: string, target: string, a: set<string>, b: set<string>)
    requires Linked(stats, root, target) && Walked(stats, target, a, b)
    ensures Walked(stats, root, a, b)
  {
    forall k | k in b && k !in a ensures LeadsTo(stats, root, k) {
      ReachesOverLink(stats, root, target, k);
    }
  }

  /** The walk through all that `root` refers to, with `root` itself. */
  lemma WalkedFromRoot(stats: Report, root: string, before: set<string>, after: set<string>)
    requires root in stats.entries && Walked(stats, root, before + {root}, after)
    requires forall b :: Linked(stats, root, b) ==> b in after
    ensures Walked(stats, root, before, after)
  {
    ReachesItself(stats, root);
    forall x, y | x in after - before && Linked(stats, x, y) ensures y in after {
      if x != root {
        assert x in after - (before + {root});
      }
    }
  }

  method WalkStats(stats: Report, base: Option<Stat>, resultSet: ResultSet)
    requires stats.Valid() && resultSet.Valid(stats)
    requires base.Some? ==> stats.Get(base.value.id) == base
    modifies resultSet
    ensures resultSet.Valid(stats)
    ensures base.None? ==> resultSet.entries == old(resultSet.entries)
    ensures base.Some? ==> base.value.id in resultSet.entries
    ensures base.Some? ==> Walked(stats, base.value.id, old(resultSet.entries).Keys, resultSet.entries.Keys)
    decreases stats.entries.Keys - resultSet.entries.Keys, 1
  {
    if base.None? || base.value.id in resultSet.entries {
      return;
    }
    var stat := base.value;
    ghost var before := resultSet.entries.Keys;
    resultSet.Set(stats, stat);
    ghost var start := resultSet.entries.Keys;
    assert start == before + {stat.id};
    WalkProperties(stats, stat, resultSet, start);
    WalkedFromRoot(stats, stat.id, before, resultSet.entries.Keys);
  }

  /** All that the first `n` properties refer to, and that is in the report, is in `s`. */
  ghost predicate LinksIn(stats: Report, stat: Stat, n: nat, s: set<string>)
    requires n <= |stat.properties|
  {
    forall j, b :: 0 <= j < n && b in LinksOf(stat.properties[j]) && b in stats.entries ==> b in s
  }

  lemma MoreLinksIn(stats: Report, stat: Stat, n: nat, s: set<string>, t: set<string>)
    requires n < |stat.properties| && LinksIn(stats, stat, n, s) && s <= t
    requires forall b :: b in LinksOf(stat.properties[n]) && b in stats.entries ==> b in t
    ensures LinksIn(stats, stat, n + 1, t)
  {
  }

  /** The loop of `walkStats` over the properties of a stat. */
  method WalkProperties(stats: Report, stat: Stat, resultSet: ResultSet, ghost start: set<string>)
    requires stats.Valid() && resultSet.Valid(stats) && stats.Get(stat.id) == Some(stat)
    requires stat.id in start && start == resultSet.entries.Keys
    modifies resultSet
    ensures resultSet.Valid(stats) && Walked(stats, stat.id, start, resultSet.entries.Keys)
    ensures LinksIn(stats, stat, |stat.properties|, resultSet.entries.Keys)
    decreases stats.entries.Keys - resultSet.entries.Keys, 5
  {
    var i := 0;
    while i < |stat.properties|
      invariant 0 <= i <= |stat.properties|
      invariant resultSet.Valid(stats) && Walked(stats, stat.id, start, resultSet.entries.Keys)
      invariant LinksIn(stats, stat, i, resultSet.entries.Keys)
    {
      ghost var middle := resultSet.entries.Keys;
      WalkProperty(stats, stat, i, resultSet, start);
      MoreLinksIn(stats, stat, i, middle, resultSet.entries.Keys);
      i := i + 1;
    }
  }

  /** What `walkStats` does with one property of a stat. */
  method WalkProperty(stats: Report, stat: Stat, i: nat, resultSet: ResultSet, ghost start: set<string>)
    requires stats.Valid() && resultSet.Valid(stats) && stats.Get(stat.id) == Some(stat)
    requires i < |stat.properties| && stat.id in start
    requires Walked(stats, stat.id, start, resultSet.entries.Keys)
    modifies resultSet
    ensures resultSet.Valid(stats) && old(resultSet.entries).Keys <= resultSet.entries.Keys
    ensures Walked(stats, stat.id, start, resultSet.entries.Keys)
    ensures forall b :: b in LinksOf(stat.properties[i]) && b in stats.entries ==> b in resultSet.entries
    decreases stats.entries.Keys - resultSet.entries.Keys, 4
  {
    var p := stat.properties[i];
    if EndsWith(p.name, "Id") {
      if p.value.Text? {
        WalkAll(stats, stat.id, [p.value.text], resultSet, start);
      }
    } else if EndsWith(p.name, "Ids") {
      WalkAll(stats, stat.id, p.value.items, resultSet, start);
    }
  }

  /** `walkStats` for each id of a list that the stat `root` refers to. */
  method WalkAll(stats: Report, ghost root: string, ids: seq<string>, resultSet: ResultSet, ghost start: set<string>)
    requires stats.Valid() && resultSet.Valid(stats)
    requires forall id :: id in ids && id in stats.entries ==> Linked(stats, root, id)
    requires Walked(stats, root, start, resultSet.entries.Keys)
    modifies resultSet
    ensures resultSet.Valid(stats) && old(resultSet.entries).Keys <= resultSet.entries.Keys
    ensures Walked(stats, root, start, resultSet.entries.Keys)
    ensures forall id :: id in ids && id in stats.entries ==> id in resultSet.entries
    decreases stats.entries.Keys - resultSet.entries.Keys, 3
  {
    var i := 0;
    while i < |ids|
      invariant 0 <= i <= |ids|
      invariant resultSet.Valid(stats) && old(resultSet.entries).Keys <= resultSet.entries.Keys
      invariant Walked(stats, root, start, resultSet.entries.Keys)
      invariant forall j :: 0 <= j < i && ids[j] in stats.entries ==> ids[j] in resultSet.entries
    {
      ghost var middle := resultSet.entries.Keys;
      WalkStats(stats, stats.Get(ids[i]), resultSet);
      if ids[i] in stats.entries {
        WalkedFromLink(stats, root, ids[i], middle, resultSet.entries.Keys);
        WalkedTwice(stats, root, start, middle, resultSet.entries.Keys);
      }
      i := i + 1;
    }
  }

  // ---------- The filter ----------

  /** A stat of the track itself. */
  ghost predicate IsTrackStat(stats: Report, track: string, id: string) {
    id in stats.entries && stats.entries[id].kind == "track"
      && stats.entries[id].TextOf("trackIdentifier") == Some(track)
  }

  /** An RTP stat of the given direction that belongs to the stat `trackStat`. */
  ghost predicate Belongs(stats: Report, trackStat: string, kind: string, id: string) {
    id in stats.entries && stats.entries[id].kind == kind && stats.entries[id].TextOf("trackId") == Some(trackStat)
  }

  ghost predicate IsSeed(stats: Report, track: string, kind: string, id: string) {
    exists trackStat :: IsTrackStat(stats, track, trackStat) && Belongs(stats, trackStat, kind, id)
  }

  /** What `filterStats` is to return. */
  ghost predicate Wanted(stats: Report, track: string, kind: string, id: string) {
    exists seed :: IsSeed(stats, track, kind, seed) && LeadsTo(stats, seed, id)
  }

  ghost predicate Progress(stats: Report, track: string, kind: string, s: set<string>) {
    Closed(stats, s, s) && forall k :: k in s ==> Wanted(stats, track, kind, k)
  }

  lemma WalkFromSeed(stats: Report, track: string, kind: string, seed: string, before: set<string>, after: set<string>)
    requires IsSeed(stats, track, kind, seed) && Progress(stats, track, kind, before)
    requires Walked(stats, seed, before, after)
    ensures Progress(stats, track, kind, after)
  {
    forall x, y | x in after && Linked(stats, x, y) ensures y in after {
      if x !in before {
        assert x in after - before;
      }
    }
    forall k | k in after ensures Wanted(stats, track, kind, k) {
      if k !in before {
        assert LeadsTo(stats, seed, k);
      }
    }
  }

  /** Exactly what the RTP stats of the track lead to, and nothing without a track. */
  method FilterStats(result: Report, track: Option<string>, outbound: bool) returns (filtered: ResultSet)
    requires result.Valid()
    ensures fresh(filtered) && filtered.Valid(result)
    ensures forall k :: k in filtered.entries <==>
              track.Some? && Wanted(result, track.value, if outbound then "outbound-rtp" else "inbound-rtp", k)
  {
    var kind := if outbound then "outbound-rtp" else "inbound-rtp";
    filtered := new ResultSet();
    if track.None? {
      return;
    }
    var trackStats := TrackStats(result, track.value);
    var i := 0;
    while i < |trackStats|
      invariant 0 <= i <= |trackStats|
      invariant filtered.Valid(result) && Progress(result, track.value, kind, filtered.entries.Keys)
      invariant forall j, id :: 0 <= j < i && Belongs(result, trackStats[j], kind, id) ==> id in filtered.entries
    {
      WalkRtpStats(result, track.value, trackStats[i], kind, filtered);
      i := i + 1;
    }
    forall k | Wanted(result, track.value, kind, k) ensures k in filtered.entries {
      var seed :| IsSeed(result, track.value, kind, seed) && LeadsTo(result, seed, k);
      var trackStat :| IsTrackStat(result, track.value, trackStat) && Belongs(result, trackStat, kind, seed);
      assert trackStat in trackStats;
      ClosedHoldsReachable(result, filtered.entries.Keys, seed, k);
    }
  }

  /** The ids of the stats of the track, in the order of the report. */
  method TrackStats(result: Report, track: string) returns (ids: seq<string>)
    requires result.Valid()
    ensures forall id :: id in ids <==> IsTrackStat(result, track, id)
  {
    ids := [];
    var i := 0;
    while i < |result.order|
      invariant 0 <= i <= |result.order|
      invariant forall id :: id in ids <==> id in result.order[..i] && IsTrackStat(result, track, id)
    {
      var value := result.entries[result.order[i]];
      if value.kind == "track" && value.TextOf("trackIdentifier") == Some(track) {
        ids := ids + [value.id];
      }
      i := i + 1;
    }
  }

  /** Walks from each RTP stat that belongs to the stat `trackStat` of the track. */
  method WalkRtpStats(result: Report, track: string, trackStat: string, kind: string, filtered: ResultSet)
    requires result.Valid() && IsTrackStat(result, track, trackStat)
    requires filtered.Valid(result) && Progress(result, track, kind, filtered.entries.Keys)
    modifies filtered
    ensures filtered.Valid(result) && Progress(result, track, kind, filtered.entries.Keys)
    ensures old(filtered.entries).Keys <= filtered.entries.Keys
    ensures forall id :: Belongs(result, trackStat, kind, id) ==> id in filtered.entries
  {
    var i := 0;
    while i < |result.order|
      invariant 0 <= i <= |result.order|
      invariant filtered.Valid(result) && Progress(result, track, kind, filtered.entries.Keys)
      invariant old(filtered.entries).Keys <= filtered.entries.Keys
      invariant SeedsIn(result, trackStat, kind, i, filtered.entries.Keys)
    {
      ghost var before := filtered.entries.Keys;
      WalkIfBelongs(result, track, trackStat, kind, result.order[i], filtered);
      MoreSeedsIn(result, trackStat, kind, i, before, filtered.entries.Keys);
      i := i + 1;
    }
    AllSeedsIn(result, trackStat, kind, filtered.entries.Keys);
  }

  /** Of the first `n` stats those that are seeds are in `s`. */
  ghost predicate SeedsIn(stats: Report, trackStat: string, kind: string, n: nat, s: set<string>)
    requires n <= |stats.order|
  {
    forall j :: 0 <= j < n && Belongs(stats, trackStat, kind, stats.order[j]) ==> stats.order[j] in s
  }

  lemma MoreSeedsIn(stats: Report, trackStat: string, kind: string, n: nat, s: set<string>, t: set<string>)
    requires n < |stats.order| && SeedsIn(stats, trackStat, kind, n, s) && s <= t
    requires Belongs(stats, trackStat, kind, stats.order[n]) ==> stats.order[n] in t
    ensures SeedsIn(stats, trackStat, kind, n + 1, t)
  {
  }

  lemma AllSeedsIn(stats: Report, trackStat: string, kind: string, s: set<string>)
    requires stats.Valid() && SeedsIn(stats, trackStat, kind, |stats.order|, s)
    ensures forall id :: Belongs(stats, trackStat, kind, id) ==> id in s
  {
    forall id | Belongs(stats, trackStat, kind, id) ensures id in s {
      assert id in stats.order;
    }
  }

  method WalkIfBelongs(result: Report, track: string, trackStat: string, kind: string, id: string, filtered: ResultSet)
    requires result.Valid() && IsTrackStat(result, track, trackStat) && id in result.entries
    requires filtered.Valid(result) && Progress(result, track, kind, filtered.entries.Keys)
    modifies filtered
    ensures filtered.Valid(result) && Progress(result, track, kind, filtered.entries.Keys)
    ensures old(filtered.entries).Keys <= filtered.entries.Keys
    ensures Belongs(result, trackStat, kind, id) ==> id in filtered.entries
  {
    var stats := result.entries[id];
    if stats.kind == kind && stats.TextOf("trackId") == Some(trackStat) {
      ghost var before := filtered.entries.Keys;
      assert Belongs(result, trackStat, kind, id);
      WalkStats(result, Some(stats), filtered);
      WalkFromSeed(result, track, kind, id, before, filtered.entries.Keys);
    }
  }
}
