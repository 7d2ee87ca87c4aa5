/** Bringing up one hardware port: its queues, its scheduler groups and the tree that joins them. */
module HqosPort {
  import opened Wrappers
  import opened NasIds
  import opened IdGenerator
  import opened OrderedKeys
  import opened QosRows
  import opened QosSwitches
  import opened HqosForest
  import opened HqosSteps
  import opened HqosOperations
  import opened HqosIndex
  import opened HqosReadBack
  import opened HqosBoot
  import opened HqosLinking
  import opened HqosQueues

  // ---- What a bring-up is ----

  ghost predicate NoHqos(t: Tree, port: nat) {
    PortKeys(t.queues.Keys, port) == {} && SgsOfPort(t.sgs, port) == {}
  }

  /**
   The course of one bring-up: the tree after the queues and how many were read, the tree after the
   groups and their trace, and the walk that linked all of them.
   */
  datatype Course = Course(mid: Tree, read: nat, queueParents: map<NasId, NdiId>,
                           base: Tree, tr: Trace, groupParents: map<NasId, NdiId>, exhausted: bool,
                           walk: seq<NasId>, order: seq<NasId>, links: seq<Link>)

  function Listed(b: Course): map<NasId, NdiId> { b.queueParents + b.groupParents }

  /** The groups were read back into the tree with the queues. */
  ghost predicate GroupsRead(t: Tree, port: nat, groups: seq<HwSg>, b: Course) {
    && b.base.queues == b.mid.queues && b.base.queueIds == b.mid.queueIds
    && ReadBack(b.mid.queues, groups, t.sgs, port, Progress(b.tr, b.groupParents, b.exhausted), |groups|, b.base.sgs,
                b.base.sgIds)
    && (!b.exhausted ==> (AllCreated(b.tr) <==> CanAllBeCreated(b.mid.queues, groups, t.sgs, port)))
  }

  /** Every listed node was walked, and the walk led to u. */
  ghost predicate AllLinked(b: Course, u: Tree) {
    && Walked(b.base, b.walk, Listed(b), b.order, b.links) && u == LinkAll(b.base, b.links)
    && forall c :: c in Listed(b) <==> c in b.order
  }

  /**
   Bringing up the port leads from t to u. A port that has queues or groups is refused. Else the
   queues are read; if that stops short nothing more happens; without groups it ends there; with
   groups they are read back and everything listed is linked.
   */
  ghost predicate BringsUp(t: Tree, port: nat, queueReport: seq<HwQueue>, groupReport: seq<HwSg>, rc: bool,
                           b: Course, u: Tree) {
    if !NoHqos(t, port) then !rc && u == t
    else
      && QueuesRead(t, b.mid, port, queueReport, b.read, b.queueParents)
      && if b.read < |queueReport| then !rc && u == b.mid && StoppedAt(b.mid, port, queueReport, b.read)
         else if groupReport == [] then rc && u == b.mid
         else rc && GroupsRead(t, port, Reversed(groupReport), b) && AllLinked(b, u)
  }

  ghost predicate StoppedAt(u: Tree, port: nat, report: seq<HwQueue>, n: nat)
    requires n < |report|
  {
    Known(report[n].kind) && (QUEUE_ID_MAX <= |u.queueIds| || HwKey(port, report, n) in u.queues)
  }

  /** What a bring-up assumes of the two hardware reports, taken together. */
  ghost predicate SanePort(queues: QueueTable, sgs: SgTable, port: nat, queueReport: seq<HwQueue>,
                           groupReport: seq<HwSg>) {
    && HwIdsDistinct(queues, sgs) && SaneQueues(queues, queueReport)
    && SaneReport(map[], sgs, port, Reversed(groupReport))
    && (forall i :: 0 <= i < |groupReport| ==> groupReport[i].parent != groupReport[i].ndi)
  }

  // ---- Everything read can be linked ----

  /** Every group just read back can be linked. */
  lemma ReadBackIsLinkable(t: Tree, port: nat, tr: Trace, parents: map<NasId, NdiId>, n: nat)
    requires IsTrace(t.queues, port, tr, n) && n == |tr.groups| && ParentsRecorded(tr, parents, n)
             && tr.tables[n] == t.sgs
    requires forall i :: 0 <= i < n ==> tr.groups[i].parent != tr.groups[i].ndi
    requires forall k :: k in t.queues ==> t.queues[k].id !in t.sgs
    ensures forall c :: c in parents ==> Linkable(t, c, parents[c]) && c in t.sgs
  {
    TraceGrows(t.queues, port, tr, n, n);
    RecordedIsLinkable(t, port, tr, parents, n);
  }

  lemma RecordedIsLinkable(t: Tree, port: nat, tr: Trace, parents: map<NasId, NdiId>, n: nat)
    requires n == |tr.groups| && |tr.tables| == n + 1 && |tr.ids| == n && Grown(port, tr, n, n)
    requires ParentsRecorded(tr, parents, n) && tr.tables[n] == t.sgs
    requires forall i :: 0 <= i < n ==> tr.groups[i].parent != tr.groups[i].ndi
    requires forall k :: k in t.queues ==> t.queues[k].id !in t.sgs
    ensures forall c :: c in parents ==> Linkable(t, c, parents[c]) && c in t.sgs
  {
    forall c | c in parents ensures Linkable(t, c, parents[c]) && c in t.sgs {
      assert CreatedBefore(tr.ids, n, c);
      var i :| 0 <= i < n && tr.ids[i] == Some(c);
    }
  }

  /** c is a queue of the table, linkable and with a queue's id. */
  lemma ReadQueuesAreLinkable(t: Tree, u: Tree, port: nat, report: seq<HwQueue>, n: nat, parents: map<NasId, NdiId>)
    requires QueuesRead(t, u, port, report, n, parents)
    requires forall k, k' :: k in u.queues && k' in u.queues && u.queues[k].id == u.queues[k'].id ==> k == k'
    ensures forall c :: c in parents ==>
              exists k :: k in u.queues && u.queues[k].id == c && u.queues[k].created && u.queues[k].parent == 0
  {
    forall c | c in parents
      ensures exists k :: k in u.queues && u.queues[k].id == c && u.queues[k].created && u.queues[k].parent == 0
    {
      var k :| k in u.queues && k !in t.queues && u.queues[k].id == c;
      NewRow(t.queues, u.queues, port, report, n, parents, k);
    }
  }

  /** c is there to be linked. */
  ghost predicate There(t: Tree, c: NasId) {
    if IsQueueId(c) then exists k :: k in t.queues && t.queues[k].id == c else c in t.sgs
  }

  /** After the reading every listed node is there and can be linked. */
  lemma AllAreLinkable(t: Tree, virt: set<nat>, port: nat, report: seq<HwQueue>, groups: seq<HwSg>, b: Course)
    requires QueuesRead(t, b.mid, port, report, b.read, b.queueParents) && GroupsRead(t, port, groups, b)
    requires WellLinked(b.base, virt) && forall i :: 0 <= i < |groups| ==> groups[i].parent != groups[i].ndi
    ensures forall c :: c in Listed(b) ==> Linkable(b.base, c, Listed(b)[c]) && There(b.base, c)
  {
    ReadQueuesAreLinkable(t, b.mid, port, report, b.read, b.queueParents);
    ReadBackIsLinkable(b.base, port, b.tr, b.groupParents, |groups|);
    forall k | k in b.base.queues ensures IsQueueId(b.base.queues[k].id) {
      GeneratedIdTags(QueueRawOf(b.base.queues[k].id));
    }
    forall s | s in b.base.sgs ensures !IsQueueId(s) {
      SgIdIsNoQueueId(b.base, s);
    }
    ListedAreThere(b);
  }

  lemma ListedAreThere(b: Course)
    requires forall c :: c in b.queueParents ==>
               exists k ::
                 && k in b.base.queues && b.base.queues[k].id == c
                 && b.base.queues[k].created && b.base.queues[k].parent == 0
    requires forall c :: c in b.groupParents ==> Linkable(b.base, c, b.groupParents[c]) && c in b.base.sgs
    requires IdsDistinct(b.base)
    requires forall k :: k in b.base.queues ==> IsQueueId(b.base.queues[k].id)
    requires forall s :: s in b.base.sgs ==> !IsQueueId(s)
    ensures forall c :: c in Listed(b) ==> Linkable(b.base, c, Listed(b)[c]) && There(b.base, c)
  {
    forall c | c in Listed(b) ensures Linkable(b.base, c, Listed(b)[c]) && There(b.base, c) {
      if c !in b.groupParents {
        var k :| k in b.base.queues && b.base.queues[k].id == c && b.base.queues[k].created
                 && b.base.queues[k].parent == 0;
      }
    }
  }

  // ---- What a bring-up keeps ----

  /** The tree after the groups: well linked, hardware ids distinct, packed ids at home. */
  lemma ReadTreeKeeps(t: Tree, virt: set<nat>, port: nat, report: seq<HwQueue>, groupReport: seq<HwSg>, b: Course)
    requires WellLinked(t, virt) && SgsAtHome(t.sgs) && port !in virt
             && SanePort(t.queues, t.sgs, port, report, groupReport)
    requires QueuesRead(t, b.mid, port, report, b.read, b.queueParents) && GroupsRead(t, port, Reversed(groupReport), b)
    ensures WellLinked(b.mid, virt) && SaneReport(b.mid.queues, t.sgs, port, Reversed(groupReport))
    ensures WellLinked(b.base, virt) && SgsAtHome(b.base.sgs) && HwIdsDistinct(b.base.queues, b.base.sgs)
  {
    var groups := Reversed(groupReport);
    ReadKeepsLinked(t, virt, b.mid, port, report, b.read, b.queueParents);
    ReadKeepsHwIds(t, b.mid, port, report, b.read, b.queueParents);
    ReadBackKeepsLinked(b.mid, virt, port, b.tr, |groups|, b.base.sgIds);
    assert b.base == b.mid.(sgs := b.tr.tables[|groups|], sgIds := b.base.sgIds);
    TraceKeepsHome(b.mid.queues, port, b.tr, |groups|);
    StepKeepsHwIds(b.mid.queues, port, b.tr, |groups|);
  }

  lemma LinkingKeepsRows(t: Tree, u: Tree)
    requires SameRows(t, u)
    ensures SgsAtHome(t.sgs) ==> SgsAtHome(u.sgs)
    ensures HwIdsDistinct(t.queues, t.sgs) ==> HwIdsDistinct(u.queues, u.sgs)
  {
    forall k | k in t.queues ensures u.queues[k].ndi == t.queues[k].ndi && u.queues[k].created == t.queues[k].created {
      assert u.queues[k].(parent := t.queues[k].parent) == t.queues[k];
    }
    forall s | s in t.sgs
      ensures u.sgs[s].ndi == t.sgs[s].ndi && u.sgs[s].created == t.sgs[s].created && u.sgs[s].port == t.sgs[s].port
    {
      assert u.sgs[s].(parent := t.sgs[s].parent, children := t.sgs[s].children) == t.sgs[s];
    }
  }

  /** Whatever fails on the way, a bring-up keeps the tree well linked, hardware ids distinct and packed ids at home. */
  lemma BringUpKeeps(t: Tree, virt: set<nat>, port: nat, queueReport: seq<HwQueue>, groupReport: seq<HwSg>, rc: bool,
                     b: Course, u: Tree)
    requires WellLinked(t, virt) && SgsAtHome(t.sgs) && HwIdsDistinct(t.queues, t.sgs) && port !in virt
    requires NoHqos(t, port) ==> SanePort(t.queues, t.sgs, port, queueReport, groupReport)
    requires BringsUp(t, port, queueReport, groupReport, rc, b, u)
    ensures WellLinked(u, virt) && SgsAtHome(u.sgs) && HwIdsDistinct(u.queues, u.sgs)
  {
    if NoHqos(t, port) {
      if b.read < |queueReport| || groupReport == [] {
        ReadKeepsLinked(t, virt, u, port, queueReport, b.read, b.queueParents);
        ReadKeepsHwIds(t, u, port, queueReport, b.read, b.queueParents);
      } else {
        LinkedUp(t, virt, port, queueReport, groupReport, b, u);
        LinkingKeepsRows(b.base, u);
      }
    }
  }

  /** The last part: every node's parent is the group its recorded hardware parent leads to. */
  lemma LinkedUp(t: Tree, virt: set<nat>, port: nat, queueReport: seq<HwQueue>, groupReport: seq<HwSg>, b: Course,
                 u: Tree)
    requires WellLinked(t, virt) && SgsAtHome(t.sgs) && port !in virt
    requires SanePort(t.queues, t.sgs, port, queueReport, groupReport)
    requires QueuesRead(t, b.mid, port, queueReport, b.read, b.queueParents)
             && GroupsRead(t, port, Reversed(groupReport), b)
    requires AllLinked(b, u)
    ensures WellLinked(u, virt) && SgsAtHome(b.base.sgs) && HwIdsDistinct(b.base.queues, b.base.sgs)
    ensures (forall c :: c in b.order ==> c in Listed(b)) && Exact(b.base, u, b.walk, Listed(b), b.order)
  {
    ReadTreeKeeps(t, virt, port, queueReport, groupReport, b);
    AllAreLinkable(t, virt, port, queueReport, Reversed(groupReport), b);
    HierarchyIsExact(b.base, virt, b.walk, Listed(b), b.order, b.links);
  }

  // ---- What a completed bring-up leaves ----

  /** The i-th reported queue has its row, under the group owning its recorded hardware parent. */
  ghost predicate QueueUp(u: Tree, port: nat, report: seq<HwQueue>, i: nat)
    requires i < |report|
  {
    var key, hw := HwKey(port, report, i), report[i];
    && key in u.queues && u.queues[key].ndi == hw.ndi && u.queues[key].created && u.queues[key].shadows == hw.shadows
    && Owns(u.sgs, hw.parent, u.queues[key].parent)
  }

  /**
   Group i has its row under this id, linked to the group owning its recorded hardware parent. With
   children reported before their parents the id tells the least queue number anywhere below it.
   */
  ghost predicate GroupUp(u: Tree, port: nat, groups: seq<HwSg>, i: nat, id: NasId)
    requires i < |groups|
  {
    var hw := groups[i];
    && id in u.sgs && u.sgs[id].port == port && u.sgs[id].level == hw.level && u.sgs[id].maxChild == hw.maxChild
    && u.sgs[id].profile == 0 && IdNames(port, hw.level, id)
    && u.sgs[id].ndi == hw.ndi && u.sgs[id].created && Owns(u.sgs, hw.parent, u.sgs[id].parent)
    && (ChildrenFirst(groups) ==> TellsSubtree(u.queues, groups, i, id))
  }

  /** A packed id holds the group's port and level; any other is a generated one. */
  ghost predicate IdNames(port: nat, level: nat, id: NasId) {
    if IsAutoFormed(id) then SgPort(id) == port && SgLevel(id) == level else GeneratedId(id)
  }

  lemma FollowingIdNames(port: nat, hw: HwSg, low: nat, id: NasId)
    requires IdFollows(port, hw, low, id) && low <= DEFAULT_LOWEST_ID && port < 0x1_0000_0000 && hw.level < 256
    ensures IdNames(port, hw.level, id)
  {
    if low == DEFAULT_LOWEST_ID {
      var raw: nat :| raw <= SG_ID_MAX && id == SgIdOf(raw);
      GeneratedIdTags(raw);
    } else {
      SgIdRoundTrip(port, hw.level, low);
      FormedIdTags(port, hw.level, low);
    }
  }

  /** The i-th group of a read-back has an id of that kind. */
  lemma CreatedIdNames(queues: QueueTable, port: nat, tr: Trace, n: nat, i: nat)
    requires IsTrace(queues, port, tr, n) && i < n && tr.ids[i].Some?
    requires port < 0x1_0000_0000 && tr.groups[i].level < 256
    ensures IdNames(port, tr.groups[i].level, tr.ids[i].value)
  {
    FollowingIdNames(port, tr.groups[i], tr.lows[i], tr.ids[i].value);
  }

  ghost predicate TellsSubtree(queues: QueueTable, groups: seq<HwSg>, i: nat, id: NasId)
    requires i < |groups|
  {
    && (IsAutoFormed(id) <==> exists q: nat :: q < 255 && AnywhereBelow(queues, groups, i, q))
    && (IsAutoFormed(id) ==> LeastAnywhere(queues, groups, i, SgIndex(id)))
    && (!IsAutoFormed(id) ==> GeneratedId(id))
  }

  /** Linking changes no queue's hardware id or number, so subtrees are the same before and after. */
  ghost predicate SameNumbers(a: QueueTable, b: QueueTable) {
    a.Keys == b.Keys && forall k :: k in a ==> a[k].NdiObjId() == b[k].NdiObjId()
  }

  lemma SameQueueNumbers(a: QueueTable, b: QueueTable)
    requires SameNumbers(a, b)
    ensures forall c, n :: QueueNumber(a, c, n) <==> QueueNumber(b, c, n)
    ensures forall c :: NoQueue(a, c) <==> NoQueue(b, c)
  {
    forall c, n ensures QueueNumber(a, c, n) <==> QueueNumber(b, c, n) {
      if k :| k in a && a[k].NdiObjId() == c && k.local == n {
        assert b[k].NdiObjId() == c;
      }
      if k :| k in b && b[k].NdiObjId() == c && k.local == n {
        assert a[k].NdiObjId() == c;
      }
    }
    forall c ensures NoQueue(a, c) <==> NoQueue(b, c) {
      if NoQueue(a, c) {
        forall k | k in b ensures b[k].NdiObjId() != c {
          assert a[k].NdiObjId() != c;
        }
      }
    }
  }

  lemma {:induction false} SameReach(a: QueueTable, b: QueueTable, groups: seq<HwSg>, i: nat, n: nat, depth: nat)
    requires i < |groups| && Reaches(a, groups, i, n, depth)
    requires forall c, m :: QueueNumber(a, c, m) <==> QueueNumber(b, c, m)
    requires forall c :: NoQueue(a, c) <==> NoQueue(b, c)
    ensures Reaches(b, groups, i, n, depth)
    decreases depth
  {
    if c :| c in groups[i].children && QueueNumber(a, c, n) {
      assert QueueNumber(b, c, n);
    } else {
      var j :| 0 <= j < |groups| && GroupChild(a, groups, i, j) && Reaches(a, groups, j, n, depth - 1);
      assert GroupChild(b, groups, i, j);
      SameReach(a, b, groups, j, n, depth - 1);
    }
  }

  lemma {:induction false} SameBelow(a: QueueTable, b: QueueTable, groups: seq<HwSg>, i: nat, n: nat)
    requires i < |groups|
    requires forall c, m :: QueueNumber(a, c, m) <==> QueueNumber(b, c, m)
    requires forall c :: NoQueue(a, c) <==> NoQueue(b, c)
    ensures Below(a, groups, i, n) <==> Below(b, groups, i, n)
    decreases i
  {
    forall j | 0 <= j < i ensures Below(a, groups, j, n) <==> Below(b, groups, j, n) {
      SameBelow(a, b, groups, j, n);
    }
  }

  lemma SameSubtrees(a: QueueTable, b: QueueTable, groups: seq<HwSg>)
    requires SameNumbers(a, b)
    ensures DistinctMinima(a, groups) <==> DistinctMinima(b, groups)
    ensures forall i: nat, id :: i < |groups| ==> (TellsSubtree(a, groups, i, id) <==> TellsSubtree(b, groups, i, id))
  {
    SameQueueNumbers(a, b);
    forall i: nat, n: nat | i < |groups| ensures Below(a, groups, i, n) <==> Below(b, groups, i, n) {
      SameBelow(a, b, groups, i, n);
    }
    forall i: nat, m: nat | i < |groups| ensures IsMinimum(a, groups, i, m) <==> IsMinimum(b, groups, i, m) {
      SameMinimumBelow(a, b, groups, i, m);
    }
    forall i: nat, n: nat | i < |groups| ensures AnywhereBelow(a, groups, i, n) <==> AnywhereBelow(b, groups, i, n) {
      SameAnywhere(a, b, groups, i, n);
    }
    SameDistinct(a, b, groups);
    forall i: nat, id | i < |groups| ensures TellsSubtree(a, groups, i, id) <==> TellsSubtree(b, groups, i, id) {
      SameTelling(a, b, groups, i, id);
    }
  }

  lemma SameMinimumBelow(a: QueueTable, b: QueueTable, groups: seq<HwSg>, i: nat, m: nat)
    requires i < |groups| && forall n: nat :: Below(a, groups, i, n) <==> Below(b, groups, i, n)
    ensures IsMinimum(a, groups, i, m) <==> IsMinimum(b, groups, i, m)
  {}

  lemma SameAnywhere(a: QueueTable, b: QueueTable, groups: seq<HwSg>, i: nat, n: nat)
    requires i < |groups|
    requires forall c, m :: QueueNumber(a, c, m) <==> QueueNumber(b, c, m)
    requires forall c :: NoQueue(a, c) <==> NoQueue(b, c)
    ensures AnywhereBelow(a, groups, i, n) <==> AnywhereBelow(b, groups, i, n)
  {
    if depth: nat :| Reaches(a, groups, i, n, depth) {
      SameReach(a, b, groups, i, n, depth);
    }
    if depth: nat :| Reaches(b, groups, i, n, depth) {
      SameReach(b, a, groups, i, n, depth);
    }
  }

  lemma SameDistinct(a: QueueTable, b: QueueTable, groups: seq<HwSg>)
    requires forall i: nat, m: nat :: i < |groups| ==> (IsMinimum(a, groups, i, m) <==> IsMinimum(b, groups, i, m))
    ensures DistinctMinima(a, groups) <==> DistinctMinima(b, groups)
  {
    forall i: nat, j: nat, m: nat | j < i < |groups|
      ensures SameMinimum(a, groups, i, j, m) <==> SameMinimum(b, groups, i, j, m) {}
  }

  lemma SameTelling(a: QueueTable, b: QueueTable, groups: seq<HwSg>, i: nat, id: NasId)
    requires i < |groups| && forall n: nat :: AnywhereBelow(a, groups, i, n) <==> AnywhereBelow(b, groups, i, n)
    ensures TellsSubtree(a, groups, i, id) <==> TellsSubtree(b, groups, i, id)
  {}

  lemma LinkedNumbers(t: Tree, u: Tree)
    requires SameRows(t, u)
    ensures SameNumbers(t.queues, u.queues)
  {
    forall k | k in t.queues ensures u.queues[k].NdiObjId() == t.queues[k].NdiObjId() {
      assert u.queues[k].(parent := t.queues[k].parent) == t.queues[k];
    }
  }

  /** The queue read as the i-th is linked to the owner of its recorded hardware parent. */
  lemma QueueIsUp(t: Tree, port: nat, report: seq<HwQueue>, b: Course, u: Tree, i: nat)
    requires QueuesRead(t, b.mid, port, report, b.read, b.queueParents) && i < b.read && Known(report[i].kind)
    requires b.base.queues == b.mid.queues && SameRows(b.base, u)
    requires (forall c :: c in b.order <==> c in Listed(b)) && Exact(b.base, u, b.walk, Listed(b), b.order)
    requires forall k :: k in b.base.queues ==> b.base.queues[k].id !in b.groupParents
    ensures QueueUp(u, port, report, i)
  {
    var key := HwKey(port, report, i);
    assert QueueRead(t.queues, b.mid.queues, port, report, i, b.queueParents);
    var id := b.base.queues[key].id;
    assert Listed(b)[id] == report[i].parent;
    assert u.queues[key].(parent := b.base.queues[key].parent) == b.base.queues[key];
    SameRowsSameOwner(b.base, u, b.walk, report[i].parent);
  }

  lemma GroupTells(t: Tree, port: nat, groups: seq<HwSg>, b: Course, u: Tree, i: nat)
    requires GroupsRead(t, port, groups, b) && SaneReport(b.mid.queues, t.sgs, port, groups) && i < |groups|
             && AllCreated(b.tr)
    requires SameRows(b.base, u) && ChildrenFirst(groups)
    ensures TellsSubtree(u.queues, groups, i, b.tr.ids[i].value)
  {
    IdCarriesSubtreeMinimum(b.mid.queues, port, b.tr, |groups|, i);
    LinkedNumbers(b.base, u);
    SameSubtrees(b.base.queues, u.queues, groups);
  }

  /** The group created as the i-th is linked to the owner of its recorded hardware parent. */
  lemma GroupIsUp(t: Tree, port: nat, groups: seq<HwSg>, b: Course, u: Tree, i: nat)
    requires GroupsRead(t, port, groups, b) && SaneReport(b.mid.queues, t.sgs, port, groups) && i < |groups|
             && AllCreated(b.tr)
    requires SameRows(b.base, u)
    requires (forall c :: c in b.order <==> c in Listed(b)) && Exact(b.base, u, b.walk, Listed(b), b.order)
    requires !IsQueueId(b.tr.ids[i].value)
    ensures GroupUp(u, port, groups, i, b.tr.ids[i].value)
  {
    var id := b.tr.ids[i].value;
    TraceGrows(b.mid.queues, port, b.tr, |groups|, |groups|);
    assert id in b.groupParents && Listed(b)[id] == groups[i].parent;
    CreatedIdNames(b.mid.queues, port, b.tr, |groups|, i);
    assert u.sgs[id].(parent := b.base.sgs[id].parent, children := b.base.sgs[id].children) == b.base.sgs[id];
    SameRowsSameOwner(b.base, u, b.walk, groups[i].parent);
    if ChildrenFirst(groups) {
      GroupTells(t, port, groups, b, u, i);
    }
  }

  /** All groups are up, each under the id the trace records. */
  ghost predicate GroupsUp(u: Tree, port: nat, groups: seq<HwSg>, ids: seq<Option<NasId>>) {
    |ids| == |groups| && forall i :: 0 <= i < |groups| ==> ids[i].Some? && GroupUp(u, port, groups, i, ids[i].value)
  }

  /** Every reported queue that is unicast, multicast or untyped is up, and the port has no other. */
  ghost predicate QueuesUp(u: Tree, port: nat, report: seq<HwQueue>) {
    && (forall i :: 0 <= i < |report| && report[i].kind in {UCAST, MULTICAST, ANYCAST} ==> QueueUp(u, port, report, i))
    && (forall k :: k in u.queues && k.port == port ==> IsReported(port, report, k))
  }

  ghost predicate IsReported(port: nat, report: seq<HwQueue>, k: Key) {
    k.kind in {UCAST, MULTICAST, ANYCAST} && exists i :: 0 <= i < |report| && k == HwKey(port, report, i)
  }

  /**
   A bring-up that succeeds has every reported queue of a known type in the table, linked; and, if no
   generator ran dry, every reported group too, under its subtree minimum, exactly when all could be
   read and the minima are distinct on each level.
   */
  lemma CompletedBringUp(t: Tree, virt: set<nat>, port: nat, queueReport: seq<HwQueue>, groupReport: seq<HwSg>,
                         b: Course, u: Tree)
    requires WellLinked(t, virt) && SgsAtHome(t.sgs) && port !in virt && groupReport != []
    requires SanePort(t.queues, t.sgs, port, queueReport, groupReport)
    requires BringsUp(t, port, queueReport, groupReport, true, b, u)
    ensures QueuesUp(u, port, queueReport)
    ensures var groups := Reversed(groupReport);
            !b.exhausted ==>
              && (AllCreated(b.tr) <==> AllReadable(groups) && DistinctMinima(u.queues, groups))
              && (AllCreated(b.tr) ==> GroupsUp(u, port, groups, b.tr.ids))
  {
    var groups := Reversed(groupReport);
    LinkedUp(t, virt, port, queueReport, groupReport, b, u);
    ReadTreeKeeps(t, virt, port, queueReport, groupReport, b);
    ReadBackIsLinkable(b.base, port, b.tr, b.groupParents, |groups|);
    CompletedQueues(t, port, queueReport, b, u);
    CompletedGroups(t, port, groups, b, u);
  }

  lemma CompletedQueues(t: Tree, port: nat, report: seq<HwQueue>, b: Course, u: Tree)
    requires QueuesRead(t, b.mid, port, report, |report|, b.queueParents) && b.read == |report|
    requires b.base.queues == b.mid.queues && SameRows(b.base, u)
    requires (forall c :: c in b.order <==> c in Listed(b)) && Exact(b.base, u, b.walk, Listed(b), b.order)
    requires forall k :: k in b.base.queues ==> b.base.queues[k].id !in b.groupParents
    requires PortKeys(t.queues.Keys, port) == {}
    ensures QueuesUp(u, port, report)
  {
    forall i | 0 <= i < |report| && report[i].kind in {UCAST, MULTICAST, ANYCAST} ensures QueueUp(u, port, report, i) {
      QueueIsUp(t, port, report, b, u, i);
    }
    forall k | k in u.queues && k.port == port ensures IsReported(port, report, k) {
      assert k !in PortKeys(t.queues.Keys, port);
      var i :| 0 <= i < |report| && KeyRead(port, report, i, k);
    }
  }

  lemma CompletedGroups(t: Tree, port: nat, groups: seq<HwSg>, b: Course, u: Tree)
    requires GroupsRead(t, port, groups, b) && SaneReport(b.mid.queues, t.sgs, port, groups)
    requires SgsAtHome(t.sgs) && SgsOfPort(t.sgs, port) == {}
    requires SameRows(b.base, u)
    requires (forall c :: c in b.order <==> c in Listed(b)) && Exact(b.base, u, b.walk, Listed(b), b.order)
    ensures !b.exhausted ==>
              && (AllCreated(b.tr) <==> AllReadable(groups) && DistinctMinima(u.queues, groups))
              && (AllCreated(b.tr) ==> GroupsUp(u, port, groups, b.tr.ids))
  {
    LinkedNumbers(b.base, u);
    SameSubtrees(b.base.queues, u.queues, groups);
    NoGroupsNoneTaken(b.mid.queues, groups, t.sgs, port);
    if AllCreated(b.tr) {
      forall i | 0 <= i < |groups| ensures GroupUp(u, port, groups, i, b.tr.ids[i].value) {
        assert b.tr.ids[i].Some?;
        CreatedIsSgId(t, port, groups, b, i);
        GroupIsUp(t, port, groups, b, u, i);
      }
    }
  }

  lemma CreatedIsSgId(t: Tree, port: nat, groups: seq<HwSg>, b: Course, i: nat)
    requires GroupsRead(t, port, groups, b) && i < |groups| && b.tr.ids[i].Some?
    ensures !IsQueueId(b.tr.ids[i].value)
  {
    TraceGrows(b.mid.queues, port, b.tr, |groups|, |groups|);
    SgIdIsNoQueueId(b.base, b.tr.ids[i].value);
  }

  // ---- The bring-up on the switch ----

  /**
   nas_qos_port_hqos_init of a hardware port: one of the courses described above, so that all that
   BringUpKeeps and CompletedBringUp say holds of it.
   */
  method PortHqosInit(sw: QosSwitch, ghost virt: set<nat>, port: nat, queueReport: seq<HwQueue>, groupReport: seq<HwSg>)
    returns (rc: bool, ghost b: Course)
    requires WellLinked(TreeOf(sw), virt) && SgsAtHome(sw.sgs) && HwIdsDistinct(sw.queues, sw.sgs) && port !in virt
    requires NoHqos(TreeOf(sw), port) ==> SanePort(sw.queues, sw.sgs, port, queueReport, groupReport)
    modifies sw`queues, sw`queueIds, sw`sgs, sw`sgIds
    ensures BringsUp(old(TreeOf(sw)), port, queueReport, groupReport, rc, b, TreeOf(sw))
    ensures WellLinked(TreeOf(sw), virt) && SgsAtHome(sw.sgs) && HwIdsDistinct(sw.queues, sw.sgs)
    ensures rc && groupReport != [] ==> QueuesUp(TreeOf(sw), port, queueReport)
    ensures var groups := Reversed(groupReport);
            rc && groupReport != [] && !b.exhausted && AllReadable(groups) && DistinctMinima(sw.queues, groups) ==>
              GroupsUp(TreeOf(sw), port, groups, b.tr.ids)
  {
    ghost var t := TreeOf(sw);
    b := Course(t, 0, map[], t, Trace([], [], [], []), map[], false, [], [], []);
    var queuesUp := sw.PortQueueIsInitialized(port);
    var groupsUp := sw.PortSgIsInitialized(port);
    if queuesUp || groupsUp {
      return false, b;
    }
    var queueParents;
    ghost var n;
    rc, queueParents, n := PortQueueInit(sw, port, queueReport);
    b := b.(mid := TreeOf(sw), read := n, queueParents := queueParents);
    if rc && |groupReport| > 0 {
      var groupParents;
      groupParents, b := ReadGroups(sw, virt, port, queueReport, groupReport, t, b);
      AllAreLinkable(t, virt, port, queueReport, Reversed(groupReport), b);
      rc, b := LinkPort(sw, queueParents, groupParents, b);
      CompletedBringUp(t, virt, port, queueReport, groupReport, b, TreeOf(sw));
    }
    BringUpKeeps(t, virt, port, queueReport, groupReport, rc, b, TreeOf(sw));
  }

  method ReadGroups(sw: QosSwitch, ghost virt: set<nat>, port: nat, ghost queueReport: seq<HwQueue>,
                    groupReport: seq<HwSg>,
                    ghost t: Tree, ghost b: Course)
    returns (groupParents: map<NasId, NdiId>, ghost b': Course)
    requires WellLinked(t, virt) && SgsAtHome(t.sgs) && port !in virt
             && SanePort(t.queues, t.sgs, port, queueReport, groupReport)
    requires QueuesRead(t, b.mid, port, queueReport, b.read, b.queueParents) && b.mid == TreeOf(sw)
    modifies sw`sgs, sw`sgIds
    ensures b' == b.(base := TreeOf(sw), tr := b'.tr, groupParents := groupParents, exhausted := b'.exhausted)
    ensures GroupsRead(t, port, Reversed(groupReport), b') && WellLinked(TreeOf(sw), virt)
  {
    SaneAfterQueues(t, virt, port, queueReport, groupReport, b);
    ghost var tr, exhausted;
    groupParents, tr, exhausted := CreatePortSchedGroups(sw, port, groupReport);
    b' := b.(base := TreeOf(sw), tr := tr, groupParents := groupParents, exhausted := exhausted);
    ReadTreeKeeps(t, virt, port, queueReport, groupReport, b');
  }

  lemma SaneAfterQueues(t: Tree, virt: set<nat>, port: nat, queueReport: seq<HwQueue>, groupReport: seq<HwSg>,
                        b: Course)
    requires WellLinked(t, virt) && port !in virt && SanePort(t.queues, t.sgs, port, queueReport, groupReport)
    requires QueuesRead(t, b.mid, port, queueReport, b.read, b.queueParents)
    ensures SaneReport(b.mid.queues, b.mid.sgs, port, Reversed(groupReport)) && SgIdsOk(b.mid.sgs, b.mid.sgIds)
  {
    ReadKeepsHwIds(t, b.mid, port, queueReport, b.read, b.queueParents);
  }

  /** setup_scheduler_group_hierarchy on what was read: nothing listed is missing, so it cannot fail. */
  method LinkPort(sw: QosSwitch, queueParents: map<NasId, NdiId>, groupParents: map<NasId, NdiId>, ghost b: Course)
    returns (rc: bool, ghost b': Course)
    requires b.base == TreeOf(sw) && b.queueParents == queueParents && b.groupParents == groupParents
    requires IdsDistinct(TreeOf(sw))
    requires forall c :: c in Listed(b) ==> Linkable(TreeOf(sw), c, Listed(b)[c]) && There(TreeOf(sw), c)
    modifies sw`queues, sw`sgs
    ensures rc && AllLinked(b', TreeOf(sw)) && b' == b.(walk := b'.walk, order := b'.order, links := b'.links)
  {
    var parents := queueParents + groupParents;
    assert parents == Listed(b);
    ghost var walk, order, links;
    rc, walk, order, links := SetupHierarchy(sw, parents);
    b' := b.(walk := walk, order := order, links := links);
  }
}
