/**
 The start-up script's view of a port's scheduler groups: per level, the ids in ascending order,
 addressed by position.
 */
module InitScript {
  import opened Wrappers
  import opened NasIds

  /** One scheduler group as reported by the read. */
  datatype Report = Report(level: nat, id: NasId)

  type SgInfo = map<nat, seq<NasId>>

  predicate Ascending(s: seq<NasId>) {
    forall i, j :: 0 <= i < j < |s| ==> s[i] <= s[j]
  }

  /** bisect: where x goes in an ascending list, after any equal elements. */
  method Bisect(s: seq<NasId>, x: NasId) returns (at: nat)
    requires Ascending(s)
    ensures at <= |s|
    ensures (forall i :: 0 <= i < at ==> s[i] <= x) && (forall i :: at <= i < |s| ==> x < s[i])
  {
    var lo, hi := 0, |s|;
    while lo < hi
      invariant 0 <= lo <= hi <= |s|
      invariant (forall i :: 0 <= i < lo ==> s[i] <= x) && (forall i :: hi <= i < |s| ==> x < s[i])
    {
      var mid := (lo + hi) / 2;
      if x < s[mid] {
        hi := mid;
      } else {
        lo := mid + 1;
      }
    }
    at := lo;
  }

  method Insort(s: seq<NasId>, x: NasId) returns (r: seq<NasId>)
    requires Ascending(s)
    ensures Ascending(r) && multiset(r) == multiset(s) + multiset{x}
  {
    var at := Bisect(s, x);
    r := s[..at] + [x] + s[at..];
    assert s == s[..at] + s[at..];
  }

  /** The ids reported at a level, in the order reported. */
  function IdsAt(reports: seq<Report>, level: nat): seq<NasId> {
    if reports == [] then []
    else
      var rest, last := IdsAt(reports[..|reports| - 1], level), reports[|reports| - 1];
      if last.level == level then rest + [last.id] else rest
  }

  /** A level is listed exactly when something was reported at it, and lists all of it in ascending order. */
  ghost predicate Lists(info: SgInfo, reports: seq<Report>) {
    && (forall level :: level in info <==> IdsAt(reports, level) != [])
    && (forall level :: level in info ==>
          Ascending(info[level]) && multiset(info[level]) == multiset(IdsAt(reports, level)))
  }

  method ReadSchedGrp(reports: seq<Report>) returns (info: SgInfo)
    ensures Lists(info, reports)
  {
    info := map[];
    for n := 0 to |reports|
      invariant Lists(info, reports[..n])
    {
      var level, id := reports[n].level, reports[n].id;
      assert reports[..n + 1][..n] == reports[..n];
      ghost var was := info;
      var sorted := [id];
      if level in info {
        sorted := Insort(info[level], id);
      }
      info := info[level := sorted];
      forall l ensures IdsAt(reports[..n + 1], l) == IdsAt(reports[..n], l) + (if l == level then [id] else []) {}
      assert multiset(IdsAt(reports[..n], level) + [id]) == multiset(IdsAt(reports[..n], level)) + multiset{id};
    }
    assert reports[..|reports|] == reports;
  }

  /** get_sched_grp; None is the script's KeyError or IndexError. */
  function GetSchedGrp(info: SgInfo, level: nat, n: nat): Option<NasId> {
    if level in info && n < |info[level]| then Some(info[level][n]) else None
  }

  // ---- The order of the reports does not matter ----

  lemma HeadIsLeast(s: seq<NasId>, x: NasId)
    requires Ascending(s) && x in multiset(s)
    ensures s != [] && s[0] <= x
  {}

  lemma TailLeaves(s: seq<NasId>)
    requires s != []
    ensures s[0] in multiset(s) && multiset(s[1..]) == multiset(s) - multiset{s[0]}
  {
    assert s == [s[0]] + s[1..];
  }

  lemma SameHead(a: seq<NasId>, b: seq<NasId>)
    requires Ascending(a) && Ascending(b) && multiset(a) == multiset(b) && a != []
    ensures b != [] && a[0] == b[0] && multiset(a[1..]) == multiset(b[1..])
  {
    TailLeaves(a);
    HeadIsLeast(b, a[0]);
    TailLeaves(b);
    HeadIsLeast(a, b[0]);
  }

  lemma {:induction false} AscendingIsUnique(a: seq<NasId>, b: seq<NasId>)
    requires Ascending(a) && Ascending(b) && multiset(a) == multiset(b)
    ensures a == b
  {
    if a == [] {
      assert |multiset(b)| == 0;
    } else {
      SameHead(a, b);
      AscendingIsUnique(a[1..], b[1..]);
      HeadAndTail(a, b);
    }
  }

  lemma HeadAndTail(a: seq<NasId>, b: seq<NasId>)
    requires a != [] && b != [] && a[0] == b[0] && a[1..] == b[1..]
    ensures a == b
  {}

  lemma {:induction false} CountAt(reports: seq<Report>, level: nat, id: NasId)
    ensures multiset(IdsAt(reports, level))[id] == multiset(reports)[Report(level, id)]
  {
    if reports != [] {
      var front, last := reports[..|reports| - 1], reports[|reports| - 1];
      CountAt(front, level, id);
      assert reports == front + [last];
    }
  }

  /** The same groups, reported in any order, give the same lists. */
  lemma ReportOrderIsIrrelevant(reports: seq<Report>, reports': seq<Report>, info: SgInfo, info': SgInfo)
    requires multiset(reports) == multiset(reports')
    requires Lists(info, reports) && Lists(info', reports')
    ensures info == info'
  {
    forall level ensures multiset(IdsAt(reports, level)) == multiset(IdsAt(reports', level)) {
      forall id ensures multiset(IdsAt(reports, level))[id] == multiset(IdsAt(reports', level))[id] {
        CountAt(reports, level, id);
        CountAt(reports', level, id);
      }
    }
    forall level ensures level in info <==> level in info' {
      assert |IdsAt(reports, level)| == |multiset(IdsAt(reports, level))|;
      assert |IdsAt(reports', level)| == |multiset(IdsAt(reports', level))|;
    }
    forall level | level in info ensures info[level] == info'[level] {
      AscendingIsUnique(info[level], info'[level]);
    }
  }

  // ---- The groups of one port ----

  /** The reports are distinct groups of one port, each under a packed id or one from the generator. */
  ghost predicate GroupsOf(port: nat, reports: seq<Report>) {
    && port < 0x1_0000_0000
    && (forall i :: 0 <= i < |reports| ==> IsPacked(port, reports[i]) || IsGenerated(reports[i]))
    && (forall i, j :: 0 <= i < j < |reports| ==> reports[i] != reports[j])
  }

  ghost predicate IsPacked(port: nat, r: Report) {
    r.level < 256 && exists index: nat :: index < 0x1_0000 && r.id == FormatSgId(port, r.level, index)
  }

  ghost predicate IsGenerated(r: Report) {
    exists raw: nat :: raw <= 0xFFFF && r.id == SgIdOf(raw)
  }

  /** The local indices reported at a level: those of the auto-formed ids. */
  ghost function Indices(reports: seq<Report>, level: nat): set<nat> {
    set i | 0 <= i < |reports| && reports[i].level == level && IsAutoFormed(reports[i].id) :: SgIndex(reports[i].id)
  }

  /** The ids reported at a level that came from the generator. */
  ghost function GeneratedIds(reports: seq<Report>, level: nat): set<NasId> {
    set i | 0 <= i < |reports| && reports[i].level == level && !IsAutoFormed(reports[i].id) :: reports[i].id
  }

  /** All packed ids lie above this, all generated ones below. */
  const FIRST_PACKED: nat := 0x2100_0000_0000_0000

  lemma PackedId(port: nat, r: Report)
    requires port < 0x1_0000_0000 && IsPacked(port, r)
    ensures IsAutoFormed(r.id) && r.id >= FIRST_PACKED
    ensures SgIndex(r.id) < 0x1_0000 && r.id == FormatSgId(port, r.level, SgIndex(r.id))
  {
    var index: nat :| index < 0x1_0000 && r.id == FormatSgId(port, r.level, index);
    SgIdRoundTrip(port, r.level, index);
    SgIdValue(port, r.level, index);
    FormedIdTags(port, r.level, index);
  }

  lemma GeneratedIdIsLow(r: Report)
    requires IsGenerated(r)
    ensures !IsAutoFormed(r.id) && r.id < FIRST_PACKED
  {
    var raw: nat :| raw <= 0xFFFF && r.id == SgIdOf(raw);
    GeneratedIdValues(raw);
    GeneratedIdTags(raw);
  }

  /** Each id of a level's list was reported, once, and each reported index is in the list. */
  lemma ListedGroups(port: nat, reports: seq<Report>, info: SgInfo, level: nat)
    requires GroupsOf(port, reports) && Lists(info, reports) && level in info
    ensures forall n :: 0 <= n < |info[level]| ==> Report(level, info[level][n]) in reports
    ensures forall m, n :: 0 <= m < n < |info[level]| ==> info[level][m] < info[level][n]
    ensures forall r :: r in reports && r.level == level ==> r.id in info[level]
  {
    var s := info[level];
    forall n | 0 <= n < |s| ensures Report(level, s[n]) in reports {
      assert s[n] in multiset(s);
      CountAt(reports, level, s[n]);
    }
    forall m, n | 0 <= m < n < |s| ensures s[m] < s[n] {
      if s[m] == s[n] {
        CountAt(reports, level, s[m]);
        Twice(s, m, n);
        OnceEach(reports, Report(level, s[m]));
        assert false;
      }
    }
    forall r | r in reports && r.level == level ensures r.id in s {
      CountAt(reports, level, r.id);
      assert r in multiset(reports);
      assert r.id in multiset(s);
    }
  }

  lemma Twice(s: seq<NasId>, m: nat, n: nat)
    requires m < n < |s| && s[m] == s[n]
    ensures multiset(s)[s[m]] >= 2
  {
    assert s == s[..n] + [s[n]] + s[n + 1..];
    assert s[m] in s[..n];
  }

  lemma {:induction false} OnceEach(reports: seq<Report>, r: Report)
    requires forall i, j :: 0 <= i < j < |reports| ==> reports[i] != reports[j]
    ensures multiset(reports)[r] <= 1
  {
    if reports != [] {
      var front, last := reports[..|reports| - 1], reports[|reports| - 1];
      OnceEach(front, r);
      assert reports == front + [last];
      if last == r {
        assert r !in front;
        assert multiset(front)[r] == 0;
      }
    }
  }

  ghost function IndexList(s: seq<NasId>): (r: seq<nat>)
    ensures |r| == |s| && forall n :: 0 <= n < |s| ==> r[n] == SgIndex(s[n])
  {
    seq(|s|, n requires 0 <= n < |s| => SgIndex(s[n]))
  }

  predicate Increasing(s: seq<nat>) {
    forall i, j :: 0 <= i < j < |s| ==> s[i] < s[j]
  }

  ghost function Elements(s: seq<nat>): set<nat> { set n | 0 <= n < |s| :: s[n] }

  /** How many of the ids of a strictly ascending list lie below a bound: they come first. */
  lemma Split(s: seq<NasId>, bound: nat) returns (k: nat)
    requires forall m, n :: 0 <= m < n < |s| ==> s[m] < s[n]
    ensures k <= |s| && (forall n :: 0 <= n < k ==> s[n] < bound) && forall n :: k <= n < |s| ==> bound <= s[n]
  {
    k := 0;
    while k < |s| && s[k] < bound
      invariant k <= |s| && forall n :: 0 <= n < k ==> s[n] < bound
    {
      k := k + 1;
    }
  }

  /** The id is the packed one of the level and its own index. */
  predicate PackedAt(port: nat, level: nat, id: NasId) {
    level < 256 && SgIndex(id) < 0x1_0000 && id == FormatSgId(port, level, SgIndex(id))
  }

  /** Each listed id is packed or generated, and lies accordingly. */
  lemma KindOfListed(port: nat, reports: seq<Report>, level: nat, id: NasId)
    requires GroupsOf(port, reports) && Report(level, id) in reports
    ensures IsAutoFormed(id) <==> FIRST_PACKED <= id
    ensures IsAutoFormed(id) ==> PackedAt(port, level, id) && SgIndex(id) in Indices(reports, level)
    ensures !IsAutoFormed(id) ==> id in GeneratedIds(reports, level)
  {
    var r := Report(level, id);
    var i :| 0 <= i < |reports| && reports[i] == r;
    if IsPacked(port, r) {
      PackedId(port, r);
    } else {
      GeneratedIdIsLow(r);
    }
  }

  /**
   A level's list: first the ids from the generator, then the auto-formed ones in ascending order of
   their local indices, which are exactly the reported ones.
   */
  lemma AscendingByIndex(port: nat, reports: seq<Report>, info: SgInfo, level: nat)
    requires GroupsOf(port, reports) && Lists(info, reports) && level in info
    ensures var s, g := info[level], |GeneratedIds(reports, level)|;
            && g <= |s| && (forall n :: 0 <= n < g ==> s[n] in GeneratedIds(reports, level))
            && (forall n :: g <= n < |s| ==> PackedAt(port, level, s[n]))
            && Increasing(IndexList(s[g..])) && Elements(IndexList(s[g..])) == Indices(reports, level)
  {
    var s := info[level];
    ListedGroups(port, reports, info, level);
    var k := Split(s, FIRST_PACKED);
    forall n | 0 <= n < |s|
      ensures IsAutoFormed(s[n]) <==> k <= n
      ensures k <= n ==> PackedAt(port, level, s[n]) && SgIndex(s[n]) in Indices(reports, level)
      ensures n < k ==> s[n] in GeneratedIds(reports, level)
    {
      KindOfListed(port, reports, level, s[n]);
    }
    GeneratedFirst(reports, s, level, k);
    forall m, n | k <= m < n < |s| ensures SgIndex(s[m]) < SgIndex(s[n]) {
      OrderOfPacked(port, level, s[m], s[n]);
    }
    PackedLast(reports, s, level, k);
  }

  lemma GeneratedFirst(reports: seq<Report>, s: seq<NasId>, level: nat, k: nat)
    requires k <= |s| && forall m, n :: 0 <= m < n < |s| ==> s[m] < s[n]
    requires forall n :: 0 <= n < |s| ==> (IsAutoFormed(s[n]) <==> k <= n)
    requires forall n :: 0 <= n < k ==> s[n] in GeneratedIds(reports, level)
    requires forall r :: r in reports && r.level == level ==> r.id in s
    ensures k == |GeneratedIds(reports, level)|
  {
    forall id | id in GeneratedIds(reports, level) ensures id in Elements(s[..k]) {
      var i :| 0 <= i < |reports| && reports[i].level == level && !IsAutoFormed(reports[i].id) && reports[i].id == id;
      var n :| 0 <= n < |s| && s[n] == id;
      assert s[..k][n] == id;
    }
    assert Elements(s[..k]) == GeneratedIds(reports, level);
    FirstN(s, k);
  }

  lemma OrderOfPacked(port: nat, level: nat, a: NasId, b: NasId)
    requires port < 0x1_0000_0000 && PackedAt(port, level, a) && PackedAt(port, level, b) && a < b
    ensures SgIndex(a) < SgIndex(b)
  {
    SgIdMonotone(port, level, SgIndex(a), SgIndex(b));
  }

  lemma PackedLast(reports: seq<Report>, s: seq<NasId>, level: nat, k: nat)
    requires k <= |s| && forall n :: 0 <= n < |s| ==> (IsAutoFormed(s[n]) <==> k <= n)
    requires forall m, n :: k <= m < n < |s| ==> SgIndex(s[m]) < SgIndex(s[n])
    requires forall n :: k <= n < |s| ==> SgIndex(s[n]) in Indices(reports, level)
    requires forall r :: r in reports && r.level == level ==> r.id in s
    ensures Increasing(IndexList(s[k..])) && Elements(IndexList(s[k..])) == Indices(reports, level)
  {
    forall x | x in Indices(reports, level) ensures x in Elements(IndexList(s[k..])) {
      var i :| 0 <= i < |reports| && reports[i].level == level && IsAutoFormed(reports[i].id)
               && SgIndex(reports[i].id) == x;
      var n :| 0 <= n < |s| && s[n] == reports[i].id;
      assert IndexList(s[k..])[n - k] == x;
    }
  }

  ghost function Below(indices: set<nat>, bound: nat): set<nat> {
    set x | x in indices && x < bound
  }

  lemma {:induction false} FirstN(s: seq<nat>, n: nat)
    requires n <= |s| && Increasing(s)
    ensures |Elements(s[..n])| == n
  {
    if n > 0 {
      FirstN(s, n - 1);
      assert s[..n] == s[..n - 1] + [s[n - 1]];
      forall x ensures x in Elements(s[..n]) <==> x in Elements(s[..n - 1]) + {s[n - 1]} {
        if x in Elements(s[..n - 1]) {
          var i :| 0 <= i < n - 1 && s[..n - 1][i] == x;
          assert s[..n][i] == x;
        }
        assert s[..n][n - 1] == s[n - 1];
      }
      assert Elements(s[..n]) == Elements(s[..n - 1]) + {s[n - 1]};
    }
  }

  /** In an increasing list, the n-th element has exactly n of the elements below it. */
  lemma RankIsPosition(s: seq<nat>, n: nat)
    requires n < |s| && Increasing(s)
    ensures s[n] in Elements(s) && |Below(Elements(s), s[n])| == n
  {
    FirstN(s, n);
    forall x ensures x in Below(Elements(s), s[n]) <==> x in Elements(s[..n]) {
      if x in Elements(s[..n]) {
        var i :| 0 <= i < n && s[..n][i] == x;
        assert s[i] == x;
      }
      if x in Below(Elements(s), s[n]) {
        var i :| 0 <= i < |s| && s[i] == x;
        assert s[..n][i] == x;
      }
    }
    assert Below(Elements(s), s[n]) == Elements(s[..n]);
  }

  /**
   With g ids from the generator on a level, position g + n is the group with the n-th smallest local
   index: exactly n of the reported indices are smaller. Earlier positions hold the generated ids, and
   every position up to the number of reported groups is filled.
   */
  lemma PositionIsRank(port: nat, reports: seq<Report>, info: SgInfo, level: nat, n: nat)
    requires GroupsOf(port, reports) && Lists(info, reports)
    ensures var g := |GeneratedIds(reports, level)|;
            var r := GetSchedGrp(info, level, n);
            && (r.Some? <==> n < g + |Indices(reports, level)|)
            && (r.Some? && n < g ==> r.value in GeneratedIds(reports, level))
            && (r.Some? && g <= n ==>
                  && SgIndex(r.value) in Indices(reports, level)
                  && |Below(Indices(reports, level), SgIndex(r.value))| == n - g
                  && PackedAt(port, level, r.value))
  {
    if level in info {
      var s, g := info[level], |GeneratedIds(reports, level)|;
      AscendingByIndex(port, reports, info, level);
      var list := IndexList(s[g..]);
      FirstN(list, |list|);
      assert list[..|list|] == list;
      if g <= n < |s| {
        RankIsPosition(list, n - g);
        assert list[n - g] == SgIndex(s[n]);
      }
    } else {
      NothingAt(reports, level);
    }
  }

  lemma NothingAt(reports: seq<Report>, level: nat)
    requires IdsAt(reports, level) == []
    ensures Indices(reports, level) == {} && GeneratedIds(reports, level) == {}
  {}

  /** The numbers below k. */
  ghost predicate IsSegment(s: set<nat>, k: nat) { forall x: nat :: x in s <==> x < k }

  lemma {:induction false} InitialSegment(s: set<nat>, k: nat)
    requires IsSegment(s, k)
    ensures |s| == k
  {
    if k > 0 {
      InitialSegment(s - {k - 1}, k - 1);
    }
  }

  /** What the script finds is an auto-formed group of local index n. */
  predicate HoldsIndex(found: Option<NasId>, n: nat) {
    found.Some? && IsAutoFormed(found.value) && SgIndex(found.value) == n
  }

  lemma KindAtPosition(port: nat, reports: seq<Report>, info: SgInfo, level: nat, n: nat)
    requires GroupsOf(port, reports) && Lists(info, reports) && GetSchedGrp(info, level, n).Some?
    ensures IsAutoFormed(GetSchedGrp(info, level, n).value) <==> |GeneratedIds(reports, level)| <= n
  {
    var s := info[level];
    ListedGroups(port, reports, info, level);
    var k := Split(s, FIRST_PACKED);
    forall m | 0 <= m < |s|
      ensures IsAutoFormed(s[m]) <==> k <= m
      ensures m < k ==> s[m] in GeneratedIds(reports, level)
    {
      KindOfListed(port, reports, level, s[m]);
    }
    GeneratedFirst(reports, s, level, k);
  }

  /** When a level's indices are 0..k-1, position g + n is the group of local index n itself. */
  lemma PositionIsIndex(port: nat, reports: seq<Report>, info: SgInfo, level: nat, k: nat, at: nat, n: nat)
    requires GroupsOf(port, reports) && Lists(info, reports) && at == |GeneratedIds(reports, level)| + n
    requires IsSegment(Indices(reports, level), k)
    ensures var r := GetSchedGrp(info, level, at);
            if n < k then HoldsIndex(r, n) else r.None?
  {
    var x := IndexAt(port, reports, info, level, at, n);
    RankIsIndex(Indices(reports, level), k, GetSchedGrp(info, level, at), x, n);
  }

  lemma RankIsIndex(s: set<nat>, k: nat, r: Option<NasId>, x: nat, n: nat)
    requires IsSegment(s, k) && (r.Some? <==> n < |s|)
    requires n < |s| ==> HoldsIndex(r, x) && x in s && |Below(s, x)| == n
    ensures if n < k then HoldsIndex(r, n) else r.None?
  {
    InitialSegment(s, k);
    if n < k {
      RankInSegment(s, k, x);
    }
  }

  lemma RankInSegment(s: set<nat>, k: nat, x: nat)
    requires IsSegment(s, k) && x in s
    ensures |Below(s, x)| == x
  {
    InitialSegment(Below(s, x), x);
  }

  lemma IndexAt(port: nat, reports: seq<Report>, info: SgInfo, level: nat, at: nat, n: nat) returns (x: nat)
    requires GroupsOf(port, reports) && Lists(info, reports) && at == |GeneratedIds(reports, level)| + n
    ensures GetSchedGrp(info, level, at).Some? <==> n < |Indices(reports, level)|
    ensures n < |Indices(reports, level)| ==>
              HoldsIndex(GetSchedGrp(info, level, at), x) && x in Indices(reports, level)
              && |Below(Indices(reports, level), x)| == n
  {
    PositionIsRank(port, reports, info, level, at);
    x := 0;
    if GetSchedGrp(info, level, at).Some? {
      KindAtPosition(port, reports, info, level, at);
      x := SgIndex(GetSchedGrp(info, level, at).value);
    }
  }

  /**
   So a position is the local index of the group it holds exactly when no id of the level was
   generated: a single generated id shifts every position.
   */
  lemma PositionsAreIndicesExact(port: nat, reports: seq<Report>, info: SgInfo, level: nat, k: nat, n: nat)
    requires GroupsOf(port, reports) && Lists(info, reports) && n < k
    requires IsSegment(Indices(reports, level), k)
    ensures HoldsIndex(GetSchedGrp(info, level, n), n) <==> GeneratedIds(reports, level) == {}
  {
    InitialSegment(Indices(reports, level), k);
    PositionIsRank(port, reports, info, level, n);
    KindAtPosition(port, reports, info, level, n);
    var g, r := |GeneratedIds(reports, level)|, GetSchedGrp(info, level, n);
    if g <= n {
      RankInSegment(Indices(reports, level), k, SgIndex(r.value));
    }
  }
}
