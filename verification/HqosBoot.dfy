/**
 Bringing up a port's HQoS tree from the hardware: queue rows, the read-back of the scheduler
 groups, and the linking of every node to the group that owns its hardware parent.
 */
module HqosBoot {
  import opened Wrappers
  import opened NasIds
  import opened IdGenerator
  import opened OrderedKeys
  import opened QosRows
  import opened QosSwitches
  import opened HqosForest
  import opened HqosSteps
  import opened HqosOperations
  import opened HqosIndex
  import opened HqosReadBack

  // ---- Read-back of the scheduler groups ----

  function Reversed(list: seq<HwSg>): seq<HwSg> {
    seq(|list|, i requires 0 <= i < |list| => list[|list| - 1 - i])
  }

  /** Reversing a report that lists parents before their children gives the children first, and only then. */
  lemma ReversedParentsFirst(list: seq<HwSg>)
    ensures ChildrenFirst(Reversed(list)) <==>
            forall i, j :: 0 <= i < |list| && 0 <= j < |list| && list[j].ndi in list[i].children ==> i < j
  {
    var groups, n := Reversed(list), |list|;
    if ChildrenFirst(groups) {
      forall i, j | 0 <= i < |list| && 0 <= j < |list| && list[j].ndi in list[i].children ensures i < j {
        assert groups[n - 1 - i] == list[i] && groups[n - 1 - j] == list[j];
      }
    }
  }

  /** A step that adds a row in range keeps the hardware ids distinct. */
  lemma StepKeepsHwIds(queues: QueueTable, port: nat, tr: Trace, n: nat)
    requires TablesGrow(port, tr, n) && SaneReport(queues, tr.tables[0], port, tr.groups)
    ensures HwIdsDistinct(queues, tr.tables[n])
  {
    TableAt(port, tr, n, n);
    var sgs := tr.tables[n];
    forall s | s in sgs && sgs[s].created
      ensures s in tr.tables[0] || exists j ::
                0 <= j < n && tr.ids[j] == Some(s) && sgs[s] == FreshRow(port, tr.groups[j])
    {
      if s !in tr.tables[0] {
        assert CreatedBefore(tr.ids, n, s);
      }
    }
  }

  /**
   create_port_scheduler_group_list: the reported groups are created in reverse order. When no
   generator runs dry, every group is created exactly if all are readable, the groups of each level
   have distinct subtree minima, and no id these lead to was taken before.
   */
  method CreatePortSchedGroups(sw: QosSwitch, port: nat, list: seq<HwSg>)
    returns (parents: map<NasId, NdiId>, ghost tr: Trace, ghost exhausted: bool)
    requires SaneReport(sw.queues, sw.sgs, port, Reversed(list))
    requires SgIdsOk(sw.sgs, sw.sgIds)
    modifies sw`sgs, sw`sgIds
    ensures ReadBack(sw.queues, Reversed(list), old(sw.sgs), port, Progress(tr, parents, exhausted), |list|, sw.sgs,
            sw.sgIds)
    ensures CreatedWhenFree(port, tr) && (!exhausted ==> NoneDry(tr))
    ensures !exhausted ==> (AllCreated(tr) <==> CanAllBeCreated(sw.queues, tr.groups, old(sw.sgs), port))
    ensures exhausted ==> SG_ID_MAX <= |sw.sgIds|
  {
    ghost var queues, groups, base := sw.queues, Reversed(list), sw.sgs;
    parents := map[];
    ghost var p := Progress(Trace(groups, [base], [], []), map[], false);
    EmptyTrace(queues, port, p.tr);
    var i := 0;
    while i < |list|
      invariant 0 <= i <= |list| && p.parents == parents
      invariant ReadBack(queues, groups, base, port, p, i, sw.sgs, sw.sgIds)
    {
      parents, p := ReadBackStep(sw, port, list[|list| - 1 - i], parents, groups, base, p, i);
      i := i + 1;
    }
    tr, exhausted := p.tr, p.exhausted;
    assert p == Progress(tr, parents, exhausted);
    FullTrace(queues, port, tr, |list|);
    CreatedExactly(queues, port, tr, |list|);
  }

  /**
   The state of the read-back after i groups: the trace so far leads from `base` to the current
   table, the parent map names the groups created, the ids obey their discipline, no group has been
   lost to a duplicate id as long as the subtree minima are distinct, and none for want of an id as
   long as the generator was not empty.
   */
  datatype Progress = Progress(tr: Trace, parents: map<NasId, NdiId>, exhausted: bool)

  ghost predicate ReadBack(queues: QueueTable, groups: seq<HwSg>, base: SgTable, port: nat, p: Progress, i: nat,
                           sgs: SgTable, ids: set<nat>) {
    match p
    case Progress(tr, parents, exhausted) =>
      && tr.groups == groups && IsTrace(queues, port, tr, i) && ParentsRecorded(tr, parents, i)
      && tr.tables[0] == base && tr.tables[i] == sgs
      && SgIdsOk(sgs, ids) && (exhausted ==> SG_ID_MAX <= |ids|) && OnTrack(queues, tr, port, exhausted)
      && (!exhausted ==> NoneDry(tr))
  }

  lemma EmptyTrace(queues: QueueTable, port: nat, tr: Trace)
    requires |tr.tables| == 1 && tr.lows == [] && tr.ids == []
    ensures IsTrace(queues, port, tr, 0) && ParentsRecorded(tr, map[], 0)
    ensures OnTrack(queues, tr, port, false) && NoneDry(tr)
  {}

  lemma FullTrace(queues: QueueTable, port: nat, tr: Trace, n: nat)
    requires IsTrace(queues, port, tr, n) && n == |tr.groups| && SaneReport(queues, tr.tables[0], port, tr.groups)
    ensures AllCreated(tr) ==> CanAllBeCreated(queues, tr.groups, tr.tables[0], port)
  {
    if AllCreated(tr) {
      CreatedMeansDistinct(queues, port, tr, n);
      CreatedMeansNoneTaken(queues, port, tr, n);
      forall i | 0 <= i < n ensures tr.groups[i].readable {
        assert tr.ids[i].Some?;
      }
    }
  }

  ghost predicate CanAllBeCreated(queues: QueueTable, groups: seq<HwSg>, base: SgTable, port: nat) {
    AllReadable(groups) && DistinctMinima(queues, groups) && NoneTaken(queues, groups, base, port)
  }

  ghost predicate AllReadable(groups: seq<HwSg>) {
    forall i :: 0 <= i < |groups| ==> groups[i].readable
  }

  /** No group has been lost as long as all can be created. */
  ghost predicate OnTrack(queues: QueueTable, tr: Trace, port: nat, exhausted: bool)
    requires |tr.tables| > 0
  {
    !exhausted && CanAllBeCreated(queues, tr.groups, tr.tables[0], port) ==> AllCreated(tr)
  }

  /** What one step found and did; `dry` when the generator was empty. */
  datatype Step = Step(low: nat, id: Option<NasId>, dry: bool)

  ghost predicate StepTaken(queues: QueueTable, port: nat, hw: HwSg, before: SgTable, step: Step, after: SgTable,
                            ids: set<nat>) {
    match step
    case Step(low, id, dry) =>
      && IsStep(queues, port, hw, before, low, id, after) && SgIdsOk(after, ids)
      && (dry ==> id.None? && SG_ID_MAX <= |ids|)
      && (!dry && hw.readable && low == DEFAULT_LOWEST_ID ==> id.Some?)
  }

  /** A group was created under a new id. */
  lemma CreatedStep(queues: QueueTable, port: nat, hw: HwSg, before: SgTable, low: nat, id: NasId, ids: set<nat>)
    requires hw.readable && IsLowest(queues, before, hw.children, low) && IdFollows(port, hw, low, id)
    requires id !in before && SgIdsOk(before[id := FreshRow(port, hw)], ids)
    ensures StepTaken(queues, port, hw, before, Step(low, Some(id), false), before[id := FreshRow(port, hw)], ids)
  {}

  /** No id was left. */
  lemma DryStep(queues: QueueTable, port: nat, hw: HwSg, sgs: SgTable, ids: set<nat>)
    requires hw.readable && IsLowest(queues, sgs, hw.children, DEFAULT_LOWEST_ID) && SgIdsOk(sgs, ids)
             && SG_ID_MAX <= |ids|
    ensures StepTaken(queues, port, hw, sgs, Step(DEFAULT_LOWEST_ID, None, true), sgs, ids)
  {}

  /** The packed id was there already. */
  lemma DuplicateStep(queues: QueueTable, port: nat, hw: HwSg, sgs: SgTable, low: nat, ids: set<nat>)
    requires hw.readable && IsLowest(queues, sgs, hw.children, low) && low < DEFAULT_LOWEST_ID && SgIdsOk(sgs, ids)
    requires FormatSgId(port, hw.level, low) in sgs
    ensures StepTaken(queues, port, hw, sgs, Step(low, None, false), sgs, ids)
  {}

  lemma SkippedStep(queues: QueueTable, port: nat, hw: HwSg, sgs: SgTable, ids: set<nat>)
    requires !hw.readable && SgIdsOk(sgs, ids)
    ensures StepTaken(queues, port, hw, sgs, Step(0, None, false), sgs, ids)
  {}

  /** One pass of the loop: a group that cannot be read or created is skipped. */
  method ReadBackStep(sw: QosSwitch, port: nat, hw: HwSg, parents: map<NasId, NdiId>, ghost groups: seq<HwSg>,
                      ghost base: SgTable, ghost p: Progress, ghost i: nat)
    returns (parents': map<NasId, NdiId>, ghost p': Progress)
    requires ReadBack(sw.queues, groups, base, port, p, i, sw.sgs, sw.sgIds) && p.parents == parents
    requires i < |groups| && groups[i] == hw
    requires SaneReport(sw.queues, base, port, groups)
    modifies sw`sgs, sw`sgIds
    ensures ReadBack(sw.queues, groups, base, port, p', i + 1, sw.sgs, sw.sgIds) && p'.parents == parents'
  {
    ghost var sgs, ids := sw.sgs, sw.sgIds;
    var id: Option<NasId> := None;
    ghost var step := Step(0, None, false);
    ReadyForStep(sw.queues, port, p.tr, i);
    if hw.readable {
      id, step := CreatePortSchedGroup(sw, port, hw);
    } else {
      SkippedStep(sw.queues, port, hw, sgs, ids);
    }
    parents' := if id.Some? then parents[id.value := hw.parent] else parents;
    p' := NextProgress(p, hw, step, sw.sgs);
    StepRecorded(sw.queues, groups, base, port, p, i, sgs, ids, step, sw.sgs, sw.sgIds);
  }

  /** The state after one more step. */
  ghost function NextProgress(p: Progress, hw: HwSg, step: Step, after: SgTable): Progress {
    Progress(Appended(p.tr, step.low, step.id, after),
             if step.id.Some? then p.parents[step.id.value := hw.parent] else p.parents, p.exhausted || step.dry)
  }

  lemma StepRecorded(queues: QueueTable, groups: seq<HwSg>, base: SgTable, port: nat, p: Progress, i: nat,
                     sgs: SgTable, ids: set<nat>, step: Step, after: SgTable, ids': set<nat>)
    requires ReadBack(queues, groups, base, port, p, i, sgs, ids) && i < |groups|
    requires SaneReport(queues, base, port, groups) && ids <= ids'
    requires StepTaken(queues, port, groups[i], sgs, step, after, ids')
    ensures ReadBack(queues, groups, base, port, NextProgress(p, groups[i], step, after), i + 1, after, ids')
  {
    if step.id.None? && !step.dry && AllCreated(p.tr) && CanAllBeCreated(queues, groups, base, port) {
      NoneLost(queues, groups, base, port, p.tr, i, step, after, ids');
    }
    SubsetSize(ids, ids');
    RecordStep(queues, port, p.tr, p.parents, i, step.low, step.id, after);
  }

  /** As long as all can be created, no step fails but for an empty generator. */
  lemma NoneLost(queues: QueueTable, groups: seq<HwSg>, base: SgTable, port: nat, tr: Trace, i: nat, step: Step,
                 after: SgTable, ids: set<nat>)
    requires tr.groups == groups && IsTrace(queues, port, tr, i) && i < |groups| && tr.tables[0] == base
    requires SaneReport(queues, base, port, groups) && AllCreated(tr) && CanAllBeCreated(queues, groups, base, port)
    requires StepTaken(queues, port, groups[i], tr.tables[i], step, after, ids) && !step.dry
    ensures step.id.Some?
  {
    if step.id.None? {
      assert groups[i].readable && step.low < DEFAULT_LOWEST_ID;
      DistinctMeansFresh(queues, port, tr, i, step.low);
      assert false;
    }
  }

  lemma ReadyForStep(queues: QueueTable, port: nat, tr: Trace, i: nat)
    requires IsTrace(queues, port, tr, i) && i < |tr.groups| && SaneReport(queues, tr.tables[0], port, tr.groups)
    ensures HwIdsDistinct(queues, tr.tables[i]) && NDI_NULL !in tr.groups[i].children
    ensures port < 0x1_0000_0000 && tr.groups[i].level < 256
  {
    StepKeepsHwIds(queues, port, tr, i);
  }

  ghost function Appended(tr: Trace, low: nat, id: Option<NasId>, after: SgTable): Trace {
    Trace(tr.groups, tr.tables + [after], tr.lows + [low], tr.ids + [id])
  }

  lemma RecordStep(queues: QueueTable, port: nat, tr: Trace, parents: map<NasId, NdiId>, n: nat, low: nat,
                   id: Option<NasId>, after: SgTable)
    requires IsTrace(queues, port, tr, n) && n < |tr.groups| && ParentsRecorded(tr, parents, n)
    requires IsStep(queues, port, tr.groups[n], tr.tables[n], low, id, after)
    ensures var tr' := Appended(tr, low, id, after);
            && IsTrace(queues, port, tr', n + 1)
            && tr'.tables[0] == tr.tables[0] && tr'.tables[n + 1] == after
            && (AllCreated(tr) && id.Some? ==> AllCreated(tr'))
            && (NoneDry(tr) && (tr.groups[n].readable && low == DEFAULT_LOWEST_ID ==> id.Some?) ==> NoneDry(tr'))
            && ParentsRecorded(tr', if id.Some? then parents[id.value := tr.groups[n].parent] else parents, n + 1)
  {
    AppendedEnds(tr, n, low, id, after);
    if NoneDry(tr) && (tr.groups[n].readable && low == DEFAULT_LOWEST_ID ==> id.Some?) {
      StillNoneDry(tr, n, low, id, after);
    }
    ExtendTrace(queues, port, tr, n, low, id, after);
    RecordParent(port, tr, parents, n, low, id, after);
  }

  lemma AppendedEnds(tr: Trace, n: nat, low: nat, id: Option<NasId>, after: SgTable)
    requires |tr.tables| == n + 1
    ensures var tr' := Appended(tr, low, id, after);
            && |tr'.tables| == n + 2 && tr'.tables[0] == tr.tables[0] && tr'.tables[n + 1] == after
            && (AllCreated(tr) && id.Some? ==> AllCreated(tr'))
  {}

  lemma StillNoneDry(tr: Trace, n: nat, low: nat, id: Option<NasId>, after: SgTable)
    requires |tr.lows| == n == |tr.ids| < |tr.groups| && NoneDry(tr)
    requires tr.groups[n].readable && low == DEFAULT_LOWEST_ID ==> id.Some?
    ensures NoneDry(Appended(tr, low, id, after))
  {}

  /** The parent map names the created groups, each with its hardware parent. */
  ghost predicate ParentsRecorded(tr: Trace, parents: map<NasId, NdiId>, n: nat)
    requires n <= |tr.ids| && n <= |tr.groups|
  {
    && (forall c :: c in parents <==> CreatedBefore(tr.ids, n, c))
    && (forall k :: 0 <= k < n && tr.ids[k].Some? ==>
          tr.ids[k].value in parents && parents[tr.ids[k].value] == tr.groups[k].parent)
  }

  lemma RecordParent(port: nat, tr: Trace, parents: map<NasId, NdiId>, n: nat, low: nat, id: Option<NasId>,
                     after: SgTable)
    requires TablesGrow(port, tr, n) && n < |tr.groups| && ParentsRecorded(tr, parents, n)
    requires Extends(port, tr.groups[n], tr.tables[n], id, after)
    ensures var parents' := if id.Some? then parents[id.value := tr.groups[n].parent] else parents;
            ParentsRecorded(Appended(tr, low, id, after), parents', n + 1)
  {
    TableAt(port, tr, n, n);
    var ids' := tr.ids + [id];
    forall c: NasId ensures CreatedBefore(ids', n + 1, c) <==> CreatedBefore(tr.ids, n, c) || id == Some(c) {
      if CreatedBefore(tr.ids, n, c) {
        var k :| 0 <= k < n && tr.ids[k] == Some(c);
        assert ids'[k] == Some(c);
      }
      if id == Some(c) {
        assert ids'[n] == Some(c);
      }
    }
  }

  lemma ExtendTrace(queues: QueueTable, port: nat, tr: Trace, n: nat, low: nat, id: Option<NasId>, after: SgTable)
    requires IsTrace(queues, port, tr, n) && n < |tr.groups|
    requires IsStep(queues, port, tr.groups[n], tr.tables[n], low, id, after)
    ensures IsTrace(queues, port, Appended(tr, low, id, after), n + 1)
  {}

  /** create_port_scheduler_group; None is the failure return. */
  method CreatePortSchedGroup(sw: QosSwitch, port: nat, hw: HwSg) returns (id: Option<NasId>, ghost step: Step)
    requires hw.readable && HwIdsDistinct(sw.queues, sw.sgs) && NDI_NULL !in hw.children
    requires port < 0x1_0000_0000 && hw.level < 256 && SgIdsOk(sw.sgs, sw.sgIds)
    modifies sw`sgs, sw`sgIds
    ensures step.id == id && StepTaken(sw.queues, port, hw, old(sw.sgs), step, sw.sgs, sw.sgIds)
    ensures old(sw.sgIds) <= sw.sgIds
  {
    var index := LowestChildIndex(sw, hw.children);
    step := Step(index, None, false);
    var sgId;
    if index == DEFAULT_LOWEST_ID {
      var taken, raw := sw.AllocSgId();
      if taken.None? {
        DryStep(sw.queues, port, hw, sw.sgs, sw.sgIds);
        return None, step.(dry := true);
      }
      sgId := taken.value;
      GeneratedJoins(old(sw.sgs), old(sw.sgIds), raw, FreshRow(port, hw));
    } else {
      sgId := FormatSgId(port, hw.level, index);
      PackedJoins(sw.sgs, sw.sgIds, port, hw, index, sgId);
    }
    var ok := sw.AddSchedGroup(sgId, FreshRow(port, hw));
    if !ok {
      DuplicateStep(sw.queues, port, hw, sw.sgs, index, sw.sgIds);
      return None, step;
    }
    CreatedStep(sw.queues, port, hw, old(sw.sgs), index, sgId, sw.sgIds);
    id := Some(sgId);
    step := step.(id := id);
  }

  lemma GeneratedJoins(sgs: SgTable, ids: set<nat>, raw: nat, row: SchedGroup)
    requires SgIdsOk(sgs, ids) && IsFree(ids, SG_ID_MAX, raw)
    ensures SgIdOf(raw) !in sgs && GeneratedId(SgIdOf(raw)) && SgIdsOk(sgs[SgIdOf(raw) := row], ids + {raw})
  {
    GeneratedIsNew(sgs, ids, raw);
    AddedSgIdsOk(sgs, ids, raw, sgs[SgIdOf(raw) := row]);
  }

  lemma PackedJoins(sgs: SgTable, ids: set<nat>, port: nat, hw: HwSg, index: nat, id: NasId)
    requires SgIdsOk(sgs, ids) && port < 0x1_0000_0000 && hw.level < 256 && index < DEFAULT_LOWEST_ID
    requires id == FormatSgId(port, hw.level, index)
    ensures SgIdsOk(sgs[id := FreshRow(port, hw)], ids)
  {
    SgIdRoundTrip(port, hw.level, index);
  }

  lemma GeneratedIsNew(sgs: SgTable, ids: set<nat>, raw: nat)
    requires SgIdsOk(sgs, ids) && IsFree(ids, SG_ID_MAX, raw)
    ensures SgIdOf(raw) !in sgs && SgRawOf(SgIdOf(raw)) == raw
  {
    FreshSgId(Tree(map[], sgs, {}, ids), raw);
  }
}
