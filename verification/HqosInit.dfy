/**
 Reading the hardware's scheduler tree of a port back: which local index each scheduler group gets,
 and when every reported group reaches the table.
 */
module HqosIndex {
  import opened Wrappers
  import opened NasIds
  import opened IdGenerator
  import opened OrderedKeys
  import opened QosRows
  import opened QosSwitches

  const DEFAULT_LOWEST_ID: nat := 0xFF

  /** One scheduler group as the hardware reports it; `readable` is false when reading it fails. */
  datatype HwSg = HwSg(ndi: NdiId, level: nat, maxChild: nat, children: seq<NdiId>, parent: NdiId, readable: bool)

  type QueueTable = map<Key, Queue>
  type SgTable = map<NasId, SchedGroup>

  /** Some queue with this hardware id has local number n. */
  ghost predicate QueueNumber(queues: QueueTable, c: NdiId, n: nat) {
    exists k :: k in queues && queues[k].NdiObjId() == c && k.local == n
  }

  ghost predicate NoQueue(queues: QueueTable, c: NdiId) {
    forall k :: k in queues ==> queues[k].NdiObjId() != c
  }

  /** Hardware ids of backed rows are non-null and name one row. */
  ghost predicate HwIdsDistinct(queues: QueueTable, sgs: SgTable) {
    && (forall k :: k in queues && queues[k].created ==> queues[k].ndi != NDI_NULL)
    && (forall s :: s in sgs && sgs[s].created ==> sgs[s].ndi != NDI_NULL)
    && (forall k, k' ::
          k in queues && k' in queues && queues[k].created && queues[k'].created && queues[k].ndi == queues[k'].ndi ==>
            k == k')
    && (forall s, s' :: s in sgs && s' in sgs && sgs[s].created && sgs[s'].created && sgs[s].ndi == sgs[s'].ndi ==>
          s == s')
  }

  /** `low` is the least local number among the children, 255 when none is smaller. */
  ghost predicate IsLowest(queues: QueueTable, sgs: SgTable, children: seq<NdiId>, low: nat) {
    && low <= DEFAULT_LOWEST_ID
    && (forall c, n :: c in children && QueueNumber(queues, c, n) ==> low <= n)
    && (forall c, s :: c in children && NoQueue(queues, c) && s in sgs && sgs[s].NdiObjId() == c && IsAutoFormed(s) ==>
          low <= SgIndex(s))
    && (low < DEFAULT_LOWEST_ID ==> exists c :: c in children && IsIndexOfChild(queues, sgs, c, low))
  }

  ghost predicate IsIndexOfChild(queues: QueueTable, sgs: SgTable, c: NdiId, n: nat) {
    QueueNumber(queues, c, n)
    || (NoQueue(queues, c) && exists s :: s in sgs && sgs[s].NdiObjId() == c && IsAutoFormed(s) && SgIndex(s) == n)
  }

  /** get_queue_by_id: a search by hardware id. */
  method QueueByHwId(sw: QosSwitch, ndi: NdiId) returns (r: Option<Key>)
    ensures r.Some? ==> r.value in sw.queues && sw.queues[r.value].NdiObjId() == ndi
    ensures r.None? ==> NoQueue(sw.queues, ndi)
  {
    var order := Iterate(sw.queues.Keys);
    var i := 0;
    while i < |order|
      invariant 0 <= i <= |order|
      invariant forall j :: 0 <= j < i ==> sw.queues[order[j]].NdiObjId() != ndi
    {
      assert order[i] in order;
      if sw.queues[order[i]].NdiObjId() == ndi {
        return Some(order[i]);
      }
      i := i + 1;
    }
    r := None;
  }

  /** A walk of an unordered table: its keys, in an order that stays the same while no key is added or erased. */
  ghost predicate IsWalkOf(keys: set<NasId>, walk: seq<NasId>) {
    forall s :: s in walk <==> s in keys
  }

  method TableWalk(keys: set<NasId>) returns (walk: seq<NasId>)
    ensures IsWalkOf(keys, walk)
  {
    walk := [];
    var todo := keys;
    while todo != {}
      invariant todo <= keys && forall s :: s in walk <==> s in keys && s !in todo
    {
      var s :| s in todo;
      walk, todo := walk + [s], todo - {s};
    }
  }

  /** The first group on the walk with this hardware id. */
  function FirstWith(sgs: SgTable, walk: seq<NasId>, ndi: NdiId): Option<NasId> {
    if walk == [] then None
    else if walk[0] in sgs && sgs[walk[0]].NdiObjId() == ndi then Some(walk[0])
    else FirstWith(sgs, walk[1..], ndi)
  }

  lemma {:induction false} FirstWithFinds(sgs: SgTable, walk: seq<NasId>, ndi: NdiId)
    ensures match FirstWith(sgs, walk, ndi)
            case Some(s) => s in walk && s in sgs && sgs[s].NdiObjId() == ndi
            case None => forall s :: s in walk && s in sgs ==> sgs[s].NdiObjId() != ndi
  {
    if walk != [] {
      FirstWithFinds(sgs, walk[1..], ndi);
      assert forall s :: s in walk <==> s == walk[0] || s in walk[1..];
    }
  }

  /** get_scheduler_group_by_id: a search of the unordered table. */
  method SgByHwId(sw: QosSwitch, walk: seq<NasId>, ndi: NdiId) returns (r: Option<NasId>)
    ensures r == FirstWith(sw.sgs, walk, ndi)
  {
    var i := 0;
    while i < |walk|
      invariant 0 <= i <= |walk|
      invariant FirstWith(sw.sgs, walk, ndi) == FirstWith(sw.sgs, walk[i..], ndi)
    {
      if walk[i] in sw.sgs && sw.sgs[walk[i]].NdiObjId() == ndi {
        return Some(walk[i]);
      }
      i := i + 1;
    }
    r := None;
  }

  /** get_lowest_child_index */
  method LowestChildIndex(sw: QosSwitch, children: seq<NdiId>) returns (low: nat)
    requires HwIdsDistinct(sw.queues, sw.sgs) && NDI_NULL !in children
    ensures IsLowest(sw.queues, sw.sgs, children, low)
  {
    low := DEFAULT_LOWEST_ID;
    var walk := TableWalk(sw.sgs.Keys);
    var i := 0;
    while i < |children|
      invariant 0 <= i <= |children|
      invariant IsLowest(sw.queues, sw.sgs, children[..i], low)
    {
      var c := children[i];
      assert children[..i + 1] == children[..i] + [c];
      ghost var before := low;
      var q := QueueByHwId(sw, c);
      if q.Some? {
        if q.value.local < low {
          low := q.value.local;
        }
      } else {
        var s := SgByHwId(sw, walk, c);
        FirstWithFinds(sw.sgs, walk, c);
        if s.Some? && IsAutoFormed(s.value) && SgIndex(s.value) < low {
          low := SgIndex(s.value);
        }
      }
      LowestGrows(sw.queues, sw.sgs, children[..i], c, before, low);
      i := i + 1;
    }
    assert children[..i] == children;
  }

  lemma LowestGrows(queues: QueueTable, sgs: SgTable, children: seq<NdiId>, c: NdiId, low: nat, low': nat)
    requires IsLowest(queues, sgs, children, low) && low' <= low
    requires forall n :: QueueNumber(queues, c, n) ==> low' <= n
    requires NoQueue(queues, c) ==>
               forall s :: s in sgs && sgs[s].NdiObjId() == c && IsAutoFormed(s) ==> low' <= SgIndex(s)
    requires low' == low || IsIndexOfChild(queues, sgs, c, low')
    ensures IsLowest(queues, sgs, children + [c], low')
  {}
}

/** What the read-back loop creates, step by step, and what the local indices mean. */
module HqosReadBack {
  import opened Wrappers
  import opened NasIds
  import opened IdGenerator
  import opened OrderedKeys
  import opened QosRows
  import opened QosSwitches
  import opened HqosIndex

  function FreshRow(port: nat, hw: HwSg): SchedGroup {
    SchedGroup(port, hw.level, 0, hw.maxChild, 0, [], hw.ndi, true)
  }

  ghost predicate GeneratedId(id: NasId) {
    exists raw: nat :: raw <= SG_ID_MAX && id == SgIdOf(raw)
  }

  /**
   The read-back of `groups` in processing order: the table before each step, the least child index
   found, and the id of the group created, None where the step was skipped.
   */
  datatype Trace = Trace(groups: seq<HwSg>, tables: seq<SgTable>, lows: seq<nat>, ids: seq<Option<NasId>>)

  /** The table change of one step: nothing, or one new row. */
  ghost predicate Extends(port: nat, hw: HwSg, before: SgTable, id: Option<NasId>, after: SgTable) {
    match id
    case None => after == before
    case Some(s) => s !in before && after == before[s := FreshRow(port, hw)]
  }

  /** The id of a created group follows from the least child index. */
  ghost predicate IdFollows(port: nat, hw: HwSg, low: nat, id: NasId) {
    if low == DEFAULT_LOWEST_ID then GeneratedId(id) else id == FormatSgId(port, hw.level, low)
  }

  /**
   One step: a group that cannot be read is skipped; else it is created under the id its least child
   index leads to, unless that is a packed id already there, or a generated one and there is none left.
   */
  ghost predicate IsStep(queues: QueueTable, port: nat, hw: HwSg, before: SgTable, low: nat, id: Option<NasId>,
                         after: SgTable) {
    && Extends(port, hw, before, id, after) && (hw.readable ==> IsLowest(queues, before, hw.children, low))
    && match id
       case Some(s) => hw.readable && IdFollows(port, hw, low, s)
       case None => !hw.readable || low == DEFAULT_LOWEST_ID || FormatSgId(port, hw.level, low) in before
  }

  ghost predicate IsTrace(queues: QueueTable, port: nat, tr: Trace, n: nat) {
    match tr
    case Trace(groups, tables, lows, ids) =>
      && n <= |groups| && |tables| == n + 1 && |lows| == n && |ids| == n
      && forall i {:trigger ids[i]} :: 0 <= i < n ==>
           IsStep(queues, port, groups[i], tables[i], lows[i], ids[i], tables[i + 1])
  }

  ghost predicate TablesGrow(port: nat, tr: Trace, n: nat) {
    && n <= |tr.groups| && |tr.tables| == n + 1 && |tr.ids| == n
    && forall i {:trigger tr.ids[i]} :: 0 <= i < n ==>
         Extends(port, tr.groups[i], tr.tables[i], tr.ids[i], tr.tables[i + 1])
  }

  /** What is assumed of the report: distinct, non-null hardware ids new to the switch, fields in range. */
  ghost predicate SaneReport(queues: QueueTable, sgs: SgTable, port: nat, groups: seq<HwSg>) {
    && HwIdsDistinct(queues, sgs) && port < 0x1_0000_0000
    && (forall i :: 0 <= i < |groups| ==>
          groups[i].ndi != NDI_NULL && groups[i].level < 256 && NDI_NULL !in groups[i].children)
    && (forall i, j :: 0 <= i < j < |groups| ==> groups[i].ndi != groups[j].ndi)
    && (forall i, s :: 0 <= i < |groups| && s in sgs && sgs[s].created ==> groups[i].ndi != sgs[s].ndi)
    && (forall i, c, s :: 0 <= i < |groups| && c in groups[i].children && s in sgs ==> sgs[s].NdiObjId() != c)
  }

  /** The report lists children before their parents. */
  ghost predicate ChildrenFirst(groups: seq<HwSg>) {
    forall i, j :: 0 <= i < |groups| && 0 <= j < |groups| && groups[j].ndi in groups[i].children ==> j < i
  }

  /** Group j is a child of group i. */
  ghost predicate GroupChild(queues: QueueTable, groups: seq<HwSg>, i: nat, j: nat)
    requires i < |groups| && j < |groups|
  {
    groups[j].ndi in groups[i].children && NoQueue(queues, groups[j].ndi)
  }

  /** A queue numbered n can be reached from group i going down through at most `depth` groups. */
  ghost predicate Reaches(queues: QueueTable, groups: seq<HwSg>, i: nat, n: nat, depth: nat)
    requires i < |groups|
    decreases depth
  {
    || (exists c :: c in groups[i].children && QueueNumber(queues, c, n))
    || (depth > 0 && exists j ::
          0 <= j < |groups| && GroupChild(queues, groups, i, j) && Reaches(queues, groups, j, n, depth - 1))
  }

  /** A queue numbered n lies anywhere below group i. */
  ghost predicate AnywhereBelow(queues: QueueTable, groups: seq<HwSg>, i: nat, n: nat)
    requires i < |groups|
  {
    exists depth: nat :: Reaches(queues, groups, i, n, depth)
  }

  /** The same, going only through groups processed earlier. */
  ghost predicate Below(queues: QueueTable, groups: seq<HwSg>, i: nat, n: nat)
    requires i < |groups|
    decreases i
  {
    || (exists c :: c in groups[i].children && QueueNumber(queues, c, n))
    || (exists j :: 0 <= j < i && GroupChild(queues, groups, i, j) && Below(queues, groups, j, n))
  }

  /** `low` is the least queue number below group i, or 255 when none is smaller. */
  ghost predicate IsMinimum(queues: QueueTable, groups: seq<HwSg>, i: nat, low: nat)
    requires i < |groups|
  {
    && low <= DEFAULT_LOWEST_ID
    && (low < DEFAULT_LOWEST_ID ==> Below(queues, groups, i, low))
    && (forall n :: Below(queues, groups, i, n) ==> low <= n)
  }

  // ---- The tables along a trace ----

  ghost predicate AllCreated(tr: Trace) {
    forall i :: 0 <= i < |tr.ids| ==> tr.ids[i].Some?
  }

  /** A table along the trace holds the rows it started with and those created so far. */
  ghost predicate Grown(port: nat, tr: Trace, n: nat, i: nat)
    requires i <= n && |tr.tables| == n + 1 && |tr.ids| == n <= |tr.groups|
  {
    && (forall s :: s in tr.tables[0] ==> s in tr.tables[i] && tr.tables[i][s] == tr.tables[0][s])
    && (forall j :: 0 <= j < i && tr.ids[j].Some? ==>
          tr.ids[j].value in tr.tables[i] && tr.tables[i][tr.ids[j].value] == FreshRow(port, tr.groups[j]))
    && (forall s :: s in tr.tables[i] && s !in tr.tables[0] ==> CreatedBefore(tr.ids, i, s))
  }

  ghost predicate CreatedBefore(ids: seq<Option<NasId>>, i: nat, s: NasId)
    requires i <= |ids|
  {
    exists j :: 0 <= j < i && ids[j] == Some(s)
  }

  lemma {:induction false} TableAt(port: nat, tr: Trace, n: nat, i: nat)
    requires TablesGrow(port, tr, n) && i <= n
    ensures Grown(port, tr, n, i)
  {
    if i > 0 {
      TableAt(port, tr, n, i - 1);
      var before, after, id := tr.tables[i - 1], tr.tables[i], tr.ids[i - 1];
      assert Extends(port, tr.groups[i - 1], before, id, after);
      forall s | s in after && s !in tr.tables[0] ensures CreatedBefore(tr.ids, i, s) {
        if id != Some(s) {
          assert CreatedBefore(tr.ids, i - 1, s);
        }
      }
    }
  }

  lemma TraceGrows(queues: QueueTable, port: nat, tr: Trace, n: nat, i: nat)
    requires IsTrace(queues, port, tr, n) && i <= n
    ensures Grown(port, tr, n, i)
  {
    assert TablesGrow(port, tr, n);
    TableAt(port, tr, n, i);
  }

  /** The index a created group's id carries. */
  ghost predicate IdShape(id: NasId, low: nat) {
    && (IsAutoFormed(id) <==> low < DEFAULT_LOWEST_ID)
    && (IsAutoFormed(id) ==> SgIndex(id) == low)
  }

  lemma IdFollowsShape(port: nat, hw: HwSg, low: nat, id: NasId)
    requires IdFollows(port, hw, low, id) && low <= DEFAULT_LOWEST_ID && port < 0x1_0000_0000 && hw.level < 256
    ensures IdShape(id, low)
  {
    if low == DEFAULT_LOWEST_ID {
      var raw: nat :| raw <= SG_ID_MAX && id == SgIdOf(raw);
      GeneratedIdTags(raw);
    } else {
      FormedIdTags(port, hw.level, low);
      SgIdRoundTrip(port, hw.level, low);
    }
  }

  // ---- Which groups are created ----

  /** No group in need of a generated id was refused one. */
  ghost predicate NoneDry(tr: Trace) {
    forall i ::
      0 <= i < |tr.groups| && i < |tr.lows| && i < |tr.ids| ==>
        tr.groups[i].readable && tr.lows[i] == DEFAULT_LOWEST_ID ==> tr.ids[i].Some?
  }

  /** An earlier group of this level was created under this packed index. */
  ghost predicate IndexUsed(tr: Trace, i: nat, level: nat, low: nat) {
    exists j ::
      && 0 <= j < i && j < |tr.groups| && j < |tr.lows| && j < |tr.ids|
      && tr.ids[j].Some? && tr.groups[j].level == level && tr.lows[j] == low
  }

  /**
   A readable group with a packed index is created exactly when its id was not in the table at the
   start and no group created before it has the same level and index.
   */
  ghost predicate CreatedWhenFree(port: nat, tr: Trace)
    requires |tr.tables| > 0
  {
    forall i ::
      0 <= i < |tr.groups| && i < |tr.lows| && i < |tr.ids| ==>
        tr.groups[i].readable && tr.lows[i] < DEFAULT_LOWEST_ID ==>
        (tr.ids[i].Some? <==>
           FormatSgId(port, tr.groups[i].level, tr.lows[i]) !in tr.tables[0]
           && !IndexUsed(tr, i, tr.groups[i].level, tr.lows[i]))
  }

  /** A group holds this packed id exactly if it has this level and this index. */
  lemma PackedIdOf(queues: QueueTable, port: nat, tr: Trace, n: nat, j: nat, level: nat, low: nat)
    requires IsTrace(queues, port, tr, n) && SaneReport(queues, tr.tables[0], port, tr.groups)
    requires j < n && tr.ids[j].Some? && level < 256 && low < DEFAULT_LOWEST_ID
    ensures tr.ids[j].value == FormatSgId(port, level, low) <==> tr.groups[j].level == level && tr.lows[j] == low
  {
    StepFacts(queues, port, tr, n, j);
    StepId(queues, port, tr, n, j);
    FormedIdTags(port, level, low);
    if tr.lows[j] < DEFAULT_LOWEST_ID && tr.ids[j].value == FormatSgId(port, level, low) {
      SgIdInjective(port, level, low, port, tr.groups[j].level, tr.lows[j]);
    }
  }

  /** A packed id is in the table at step i if it was there at the start or an earlier group got it. */
  lemma PackedIdInTable(queues: QueueTable, port: nat, tr: Trace, n: nat, i: nat, level: nat, low: nat, id: NasId)
    requires IsTrace(queues, port, tr, n) && SaneReport(queues, tr.tables[0], port, tr.groups)
    requires i < n && level < 256 && low < DEFAULT_LOWEST_ID && id == FormatSgId(port, level, low)
    ensures id in tr.tables[i] <==> id in tr.tables[0] || IndexUsed(tr, i, level, low)
  {
    TraceGrows(queues, port, tr, n, i);
    forall j | 0 <= j < i && tr.ids[j].Some?
      ensures tr.ids[j].value == id <==> tr.groups[j].level == level && tr.lows[j] == low
    {
      PackedIdOf(queues, port, tr, n, j, level, low);
    }
    if id in tr.tables[i] && id !in tr.tables[0] {
      assert CreatedBefore(tr.ids, i, id);
      var j :| 0 <= j < i && tr.ids[j] == Some(id);
      assert tr.groups[j].level == level && tr.lows[j] == low;
    }
    if IndexUsed(tr, i, level, low) {
      var j :| 0 <= j < i && j < |tr.groups| && j < |tr.lows| && j < |tr.ids|
               && tr.ids[j].Some? && tr.groups[j].level == level && tr.lows[j] == low;
      assert tr.ids[j] == Some(id);
    }
  }

  /** Which readable groups are created, for every report and every table to start from. */
  lemma CreatedExactly(queues: QueueTable, port: nat, tr: Trace, n: nat)
    requires IsTrace(queues, port, tr, n) && SaneReport(queues, tr.tables[0], port, tr.groups)
    ensures CreatedWhenFree(port, tr)
    ensures forall i :: 0 <= i < n && tr.ids[i].Some? ==> tr.groups[i].readable
  {
    forall i | 0 <= i < n && tr.groups[i].readable && tr.lows[i] < DEFAULT_LOWEST_ID
      ensures tr.ids[i].Some? <==>
                FormatSgId(port, tr.groups[i].level, tr.lows[i]) !in tr.tables[0]
                && !IndexUsed(tr, i, tr.groups[i].level, tr.lows[i])
    {
      var id := FormatSgId(port, tr.groups[i].level, tr.lows[i]);
      PackedIdInTable(queues, port, tr, n, i, tr.groups[i].level, tr.lows[i], id);
      StepIsExact(queues, port, tr, n, i, id);
    }
  }

  lemma StepIsExact(queues: QueueTable, port: nat, tr: Trace, n: nat, i: nat, id: NasId)
    requires IsTrace(queues, port, tr, n) && i < n && tr.groups[i].readable && tr.lows[i] < DEFAULT_LOWEST_ID
    requires id == FormatSgId(port, tr.groups[i].level, tr.lows[i])
    ensures tr.ids[i].Some? <==> id !in tr.tables[i]
  {
    assert IsStep(queues, port, tr.groups[i], tr.tables[i], tr.lows[i], tr.ids[i], tr.tables[i + 1]);
  }

  // ---- The local index is the minimum over the whole subtree ----

  /** What is known of the groups before i when i is processed. */
  ghost predicate EarlierDone(queues: QueueTable, port: nat, tr: Trace, n: nat, i: nat)
    requires i <= n && |tr.tables| == n + 1 && |tr.ids| == n == |tr.lows| <= |tr.groups|
  {
    && Grown(port, tr, n, i)
    && forall j :: 0 <= j < i ==>
         tr.ids[j].Some? && IdShape(tr.ids[j].value, tr.lows[j]) && IsMinimum(queues, tr.groups, j, tr.lows[j])
  }

  lemma LowIsBound(queues: QueueTable, port: nat, tr: Trace, n: nat, i: nat, low: nat, q: nat)
    requires i <= n && i < |tr.groups| && |tr.tables| == n + 1 && |tr.ids| == n == |tr.lows| <= |tr.groups|
    requires EarlierDone(queues, port, tr, n, i) && Below(queues, tr.groups, i, q)
    requires IsLowest(queues, tr.tables[i], tr.groups[i].children, low)
    ensures low <= q
  {}

  lemma LowIsBelow(queues: QueueTable, port: nat, tr: Trace, n: nat, i: nat, low: nat)
    requires i <= n && i < |tr.groups| && |tr.tables| == n + 1 && |tr.ids| == n == |tr.lows| <= |tr.groups|
    requires EarlierDone(queues, port, tr, n, i)
    requires IsLowest(queues, tr.tables[i], tr.groups[i].children, low) && low < DEFAULT_LOWEST_ID
    requires forall c, s :: c in tr.groups[i].children && s in tr.tables[0] ==> tr.tables[0][s].NdiObjId() != c
    ensures Below(queues, tr.groups, i, low)
  {
    var c :| c in tr.groups[i].children && IsIndexOfChild(queues, tr.tables[i], c, low);
    if !QueueNumber(queues, c, low) {
      var s :| s in tr.tables[i] && tr.tables[i][s].NdiObjId() == c && IsAutoFormed(s) && SgIndex(s) == low;
      assert s !in tr.tables[0];
      assert CreatedBefore(tr.ids, i, s);
      var j :| 0 <= j < i && tr.ids[j] == Some(s);
      assert IdShape(s, tr.lows[j]);
      assert GroupChild(queues, tr.groups, i, j);
    }
  }

  /**
   When children come before parents and every group is created, each group's local index is the
   minimum queue number over all queues anywhere below it; a generated id is used exactly when no
   queue numbered under 255 lies below.
   */
  lemma {:induction false} IndexIsSubtreeMinimum(queues: QueueTable, port: nat, tr: Trace, n: nat, i: nat)
    requires IsTrace(queues, port, tr, n) && SaneReport(queues, tr.tables[0], port, tr.groups)
    requires i < n && AllCreated(tr)
    ensures IsMinimum(queues, tr.groups, i, tr.lows[i]) && IdShape(tr.ids[i].value, tr.lows[i])
  {
    forall j | 0 <= j < i
      ensures tr.ids[j].Some? && IdShape(tr.ids[j].value, tr.lows[j]) && IsMinimum(queues, tr.groups, j, tr.lows[j]) {
      IndexIsSubtreeMinimum(queues, port, tr, n, j);
    }
    TraceGrows(queues, port, tr, n, i);
    StepFacts(queues, port, tr, n, i);
    LowIsMinimum(queues, port, tr, n, i, tr.lows[i]);
  }

  lemma StepFacts(queues: QueueTable, port: nat, tr: Trace, n: nat, i: nat)
    requires IsTrace(queues, port, tr, n) && SaneReport(queues, tr.tables[0], port, tr.groups)
    requires i < n && tr.ids[i].Some?
    ensures IsLowest(queues, tr.tables[i], tr.groups[i].children, tr.lows[i])
    ensures IdShape(tr.ids[i].value, tr.lows[i])
  {
    IdFollowsShape(port, tr.groups[i], tr.lows[i], tr.ids[i].value);
  }

  lemma LowIsMinimum(queues: QueueTable, port: nat, tr: Trace, n: nat, i: nat, low: nat)
    requires i <= n && i < |tr.groups| && |tr.tables| == n + 1 && |tr.ids| == n == |tr.lows| <= |tr.groups|
    requires EarlierDone(queues, port, tr, n, i)
    requires IsLowest(queues, tr.tables[i], tr.groups[i].children, low)
    requires forall c, s :: c in tr.groups[i].children && s in tr.tables[0] ==> tr.tables[0][s].NdiObjId() != c
    ensures IsMinimum(queues, tr.groups, i, low)
  {
    forall q | Below(queues, tr.groups, i, q) ensures low <= q {
      LowIsBound(queues, port, tr, n, i, low, q);
    }
    if low < DEFAULT_LOWEST_ID {
      LowIsBelow(queues, port, tr, n, i, low);
    }
  }

  /** With children first, going down always goes back in processing order. */
  lemma {:induction false} ReachesIsBelow(queues: QueueTable, groups: seq<HwSg>, i: nat, n: nat, depth: nat)
    requires i < |groups| && ChildrenFirst(groups) && Reaches(queues, groups, i, n, depth)
    ensures Below(queues, groups, i, n)
  {
    if !exists c :: c in groups[i].children && QueueNumber(queues, c, n) {
      var j :| 0 <= j < |groups| && GroupChild(queues, groups, i, j) && Reaches(queues, groups, j, n, depth - 1);
      ReachesIsBelow(queues, groups, j, n, depth - 1);
    }
  }

  lemma {:induction false} BelowReaches(queues: QueueTable, groups: seq<HwSg>, i: nat, n: nat) returns (depth: nat)
    requires i < |groups| && Below(queues, groups, i, n)
    ensures Reaches(queues, groups, i, n, depth)
    decreases i
  {
    if exists c :: c in groups[i].children && QueueNumber(queues, c, n) {
      return 0;
    }
    var j :| 0 <= j < i && GroupChild(queues, groups, i, j) && Below(queues, groups, j, n);
    var d := BelowReaches(queues, groups, j, n);
    depth := d + 1;
  }

  lemma BelowIsAnywhere(queues: QueueTable, groups: seq<HwSg>, i: nat, n: nat)
    requires i < |groups| && ChildrenFirst(groups)
    ensures Below(queues, groups, i, n) <==> AnywhereBelow(queues, groups, i, n)
  {
    if Below(queues, groups, i, n) {
      var depth := BelowReaches(queues, groups, i, n);
    }
    if AnywhereBelow(queues, groups, i, n) {
      var depth: nat :| Reaches(queues, groups, i, n, depth);
      ReachesIsBelow(queues, groups, i, n, depth);
    }
  }

  /** m is the least number of a queue anywhere below group i, among those under 255. */
  ghost predicate LeastAnywhere(queues: QueueTable, groups: seq<HwSg>, i: nat, m: nat)
    requires i < |groups|
  {
    && m < DEFAULT_LOWEST_ID && AnywhereBelow(queues, groups, i, m)
    && forall n: nat :: AnywhereBelow(queues, groups, i, n) ==> m <= n
  }

  lemma MinimumAnywhere(queues: QueueTable, groups: seq<HwSg>, i: nat, low: nat)
    requires i < |groups| && ChildrenFirst(groups) && IsMinimum(queues, groups, i, low)
    ensures low < DEFAULT_LOWEST_ID ==> LeastAnywhere(queues, groups, i, low)
    ensures low == DEFAULT_LOWEST_ID ==> forall n: nat :: AnywhereBelow(queues, groups, i, n) ==> n >= DEFAULT_LOWEST_ID
  {
    forall n: nat ensures Below(queues, groups, i, n) <==> AnywhereBelow(queues, groups, i, n) {
      BelowIsAnywhere(queues, groups, i, n);
    }
  }

  /**
   When children come before parents and every group is created, a group's id is auto-formed exactly
   when some queue numbered under 255 lies anywhere below it, and then its packed index is the least
   such number; otherwise the id comes from the generator.
   */
  lemma IdCarriesSubtreeMinimum(queues: QueueTable, port: nat, tr: Trace, n: nat, i: nat)
    requires IsTrace(queues, port, tr, n) && SaneReport(queues, tr.tables[0], port, tr.groups)
    requires ChildrenFirst(tr.groups) && i < n && AllCreated(tr)
    ensures var id := tr.ids[i].value;
            && (IsAutoFormed(id) <==> exists q: nat :: q < 255 && AnywhereBelow(queues, tr.groups, i, q))
            && (IsAutoFormed(id) ==> LeastAnywhere(queues, tr.groups, i, SgIndex(id)))
            && (!IsAutoFormed(id) ==> GeneratedId(id))
  {
    IndexIsSubtreeMinimum(queues, port, tr, n, i);
    MinimumAnywhere(queues, tr.groups, i, tr.lows[i]);
    StepId(queues, port, tr, n, i);
  }

  lemma StepId(queues: QueueTable, port: nat, tr: Trace, n: nat, i: nat)
    requires IsTrace(queues, port, tr, n) && i < n && tr.ids[i].Some?
    ensures IdFollows(port, tr.groups[i], tr.lows[i], tr.ids[i].value)
  {}

  /** Reading groups back keeps every packed id on the port in it. */
  lemma TraceKeepsHome(queues: QueueTable, port: nat, tr: Trace, n: nat)
    requires IsTrace(queues, port, tr, n) && SaneReport(queues, tr.tables[0], port, tr.groups)
             && SgsAtHome(tr.tables[0])
    ensures SgsAtHome(tr.tables[n])
  {
    TraceGrows(queues, port, tr, n, n);
    forall s | s in tr.tables[n] && Formed(s) ensures tr.tables[n][s].port == SgPort(s) {
      if s !in tr.tables[0] {
        assert CreatedBefore(tr.ids, n, s);
        var j :| 0 <= j < n && tr.ids[j] == Some(s);
        StepId(queues, port, tr, n, j);
        StepFacts(queues, port, tr, n, j);
        FormedIdIsHome(port, tr.groups[j], tr.lows[j], s);
      }
    }
  }

  lemma FormedIdIsHome(port: nat, hw: HwSg, low: nat, id: NasId)
    requires IdFollows(port, hw, low, id) && low <= DEFAULT_LOWEST_ID && port < 0x1_0000_0000 && hw.level < 256
    requires Formed(id)
    ensures SgPort(id) == port
  {
    if low == DEFAULT_LOWEST_ID {
      var raw: nat :| raw <= SG_ID_MAX && id == SgIdOf(raw);
      FieldBounds(id);
      FormedIdTags(SgPort(id), SgLevel(id), SgIndex(id));
      GeneratedIdTags(raw);
      assert false;
    } else {
      SgIdRoundTrip(port, hw.level, low);
    }
  }

  // ---- When every reported group reaches the table ----

  /** Two groups of one level have the same least queue number under 255. */
  ghost predicate SameMinimum(queues: QueueTable, groups: seq<HwSg>, i: nat, j: nat, m: nat)
    requires i < |groups| && j < |groups|
  {
    && m < DEFAULT_LOWEST_ID && groups[i].level == groups[j].level
    && IsMinimum(queues, groups, i, m) && IsMinimum(queues, groups, j, m)
  }

  ghost predicate DistinctMinima(queues: QueueTable, groups: seq<HwSg>) {
    forall i: nat, j: nat, m: nat :: j < i < |groups| ==> !SameMinimum(queues, groups, i, j, m)
  }

  /** The ids the minima lead to are not in the table the read-back starts from. */
  ghost predicate NoneTaken(queues: QueueTable, groups: seq<HwSg>, base: SgTable, port: nat) {
    forall i: nat, m: nat :: i < |groups| && m < DEFAULT_LOWEST_ID && IsMinimum(queues, groups, i, m) ==>
      FormatSgId(port, groups[i].level, m) !in base
  }

  /** A packed id belongs to the port in it, so a port without groups has none of its ids taken by any other port. */
  lemma NoGroupsNoneTaken(queues: QueueTable, groups: seq<HwSg>, base: SgTable, port: nat)
    requires SgsAtHome(base) && SgsOfPort(base, port) == {} && port < 0x1_0000_0000
    requires forall i :: 0 <= i < |groups| ==> groups[i].level < 256
    ensures NoneTaken(queues, groups, base, port)
  {
    forall i: nat, m: nat | i < |groups| && m < DEFAULT_LOWEST_ID
      ensures FormatSgId(port, groups[i].level, m) !in base
    {
      SgIdRoundTrip(port, groups[i].level, m);
      assert FormatSgId(port, groups[i].level, m) !in SgsOfPort(base, port);
    }
  }

  /** Groups of one level that cover disjoint sets of queue numbers have distinct minima. */
  lemma DisjointCoverIsDistinct(queues: QueueTable, groups: seq<HwSg>)
    requires forall i: nat, j: nat, n: nat :: j < i < |groups| && groups[i].level == groups[j].level ==>
               !(Below(queues, groups, i, n) && Below(queues, groups, j, n))
    ensures DistinctMinima(queues, groups)
  {}

  lemma MinimumIsUnique(queues: QueueTable, groups: seq<HwSg>, i: nat, low: nat, low': nat)
    requires i < |groups| && IsMinimum(queues, groups, i, low) && IsMinimum(queues, groups, i, low')
    ensures low == low'
  {}

  /** If every group was created, no id it needed was taken before. */
  lemma CreatedMeansNoneTaken(queues: QueueTable, port: nat, tr: Trace, n: nat)
    requires IsTrace(queues, port, tr, n) && n == |tr.groups| && SaneReport(queues, tr.tables[0], port, tr.groups)
    requires AllCreated(tr)
    ensures NoneTaken(queues, tr.groups, tr.tables[0], port)
  {
    forall i: nat, m: nat | i < |tr.groups| && m < DEFAULT_LOWEST_ID && IsMinimum(queues, tr.groups, i, m)
      ensures FormatSgId(port, tr.groups[i].level, m) !in tr.tables[0]
    {
      IndexIsSubtreeMinimum(queues, port, tr, n, i);
      MinimumIsUnique(queues, tr.groups, i, m, tr.lows[i]);
      StepId(queues, port, tr, n, i);
      TraceGrows(queues, port, tr, n, i);
      StepIsNew(queues, port, tr, n, i);
    }
  }

  lemma StepIsNew(queues: QueueTable, port: nat, tr: Trace, n: nat, i: nat)
    requires IsTrace(queues, port, tr, n) && i < n && tr.ids[i].Some?
    ensures tr.ids[i].value !in tr.tables[i]
  {}

  /** If every group was created, the minima were distinct. */
  lemma CreatedMeansDistinct(queues: QueueTable, port: nat, tr: Trace, n: nat)
    requires IsTrace(queues, port, tr, n) && n == |tr.groups| && SaneReport(queues, tr.tables[0], port, tr.groups)
    requires AllCreated(tr)
    ensures DistinctMinima(queues, tr.groups)
  {
    forall i: nat, j: nat, m: nat | j < i < |tr.groups| ensures !SameMinimum(queues, tr.groups, i, j, m) {
      if SameMinimum(queues, tr.groups, i, j, m) {
        SameMinimumSameId(queues, port, tr, n, i, j, m);
        IdsDiffer(queues, port, tr, n, i, j);
        assert false;
      }
    }
  }

  lemma SameMinimumSameId(queues: QueueTable, port: nat, tr: Trace, n: nat, i: nat, j: nat, m: nat)
    requires IsTrace(queues, port, tr, n) && SaneReport(queues, tr.tables[0], port, tr.groups)
    requires AllCreated(tr) && i < n && j < n && SameMinimum(queues, tr.groups, i, j, m)
    ensures tr.ids[i] == tr.ids[j]
  {
    assert tr.lows[i] == m by {
      IndexIsSubtreeMinimum(queues, port, tr, n, i);
      MinimumIsUnique(queues, tr.groups, i, m, tr.lows[i]);
    }
    assert tr.lows[j] == m by {
      IndexIsSubtreeMinimum(queues, port, tr, n, j);
      MinimumIsUnique(queues, tr.groups, j, m, tr.lows[j]);
    }
    StepId(queues, port, tr, n, i);
    StepId(queues, port, tr, n, j);
  }

  lemma IdsDiffer(queues: QueueTable, port: nat, tr: Trace, n: nat, i: nat, j: nat)
    requires IsTrace(queues, port, tr, n) && j < i < n && tr.ids[i].Some? && tr.ids[j].Some?
    ensures tr.ids[i] != tr.ids[j]
  {
    TraceGrows(queues, port, tr, n, i);
    assert IsStep(queues, port, tr.groups[i], tr.tables[i], tr.lows[i], tr.ids[i], tr.tables[i + 1]);
  }

  /** If the minima are distinct and none taken, the id formed for the next group is not in the table yet. */
  lemma DistinctMeansFresh(queues: QueueTable, port: nat, tr: Trace, i: nat, low: nat)
    requires IsTrace(queues, port, tr, i) && i < |tr.groups| && SaneReport(queues, tr.tables[0], port, tr.groups)
    requires AllCreated(tr) && DistinctMinima(queues, tr.groups) && NoneTaken(queues, tr.groups, tr.tables[0], port)
    requires IsLowest(queues, tr.tables[i], tr.groups[i].children, low) && low < DEFAULT_LOWEST_ID
    ensures FormatSgId(port, tr.groups[i].level, low) !in tr.tables[i]
  {
    var level := tr.groups[i].level;
    var id := FormatSgId(port, level, low);
    TraceGrows(queues, port, tr, i, i);
    NextIsMinimum(queues, port, tr, i, low);
    if id in tr.tables[i] {
      assert CreatedBefore(tr.ids, i, id);
      var j :| 0 <= j < i && tr.ids[j] == Some(id);
      assert !SameMinimum(queues, tr.groups, i, j, low);
      EarlierSameId(queues, port, tr, i, j, level, low);
      assert false;
    }
  }

  /** An earlier group holding this packed id has this level and this minimum. */
  lemma EarlierSameId(queues: QueueTable, port: nat, tr: Trace, n: nat, j: nat, level: nat, low: nat)
    requires IsTrace(queues, port, tr, n) && SaneReport(queues, tr.tables[0], port, tr.groups)
    requires AllCreated(tr) && j < n && low < DEFAULT_LOWEST_ID && level < 256
    requires tr.ids[j] == Some(FormatSgId(port, level, low))
    ensures tr.groups[j].level == level && IsMinimum(queues, tr.groups, j, low)
  {
    IndexIsSubtreeMinimum(queues, port, tr, n, j);
    FormedIdTags(port, level, low);
    StepId(queues, port, tr, n, j);
    SgIdInjective(port, level, low, port, tr.groups[j].level, tr.lows[j]);
  }

  /** The least child index found for the next group is its subtree minimum. */
  lemma NextIsMinimum(queues: QueueTable, port: nat, tr: Trace, i: nat, low: nat)
    requires IsTrace(queues, port, tr, i) && i < |tr.groups| && SaneReport(queues, tr.tables[0], port, tr.groups)
    requires AllCreated(tr) && IsLowest(queues, tr.tables[i], tr.groups[i].children, low)
    ensures IsMinimum(queues, tr.groups, i, low)
  {
    forall j | 0 <= j < i
      ensures tr.ids[j].Some? && IdShape(tr.ids[j].value, tr.lows[j]) && IsMinimum(queues, tr.groups, j, tr.lows[j])
    {
      IndexIsSubtreeMinimum(queues, port, tr, i, j);
    }
    TraceGrows(queues, port, tr, i, i);
    LowIsMinimum(queues, port, tr, i, i, low);
  }
}
