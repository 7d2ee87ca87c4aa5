/**
 When the tree is a forest - well linked, acyclic, with packed ids on their own ports and distinct
 hardware ids - and what each operation and notification must avoid to keep it one, stated exactly.
 */
module HqosSound {
  import opened Wrappers
  import opened NasIds
  import opened IdGenerator
  import opened OrderedKeys
  import opened QosRows
  import opened QosSwitches
  import opened HqosForest
  import opened HqosSteps
  import opened HqosAcyclic
  import opened HqosIndex
  import opened HqosReadBack
  import opened HqosBoot
  import opened HqosLinking
  import opened HqosQueues
  import opened HqosPort
  import opened HqosVirtual
  import opened HqosBinding
  import VpTables
  import VpQueues

  ghost predicate Forest(t: Tree, virt: set<nat>) {
    WellLinked(t, virt) && Rooted(t.sgs) && SgsAtHome(t.sgs) && HwIdsDistinct(t.queues, t.sgs)
  }

  const EMPTY_TREE: Tree := Tree(map[], map[], {}, {})

  lemma EmptyTreeIsForest(virt: set<nat>)
    ensures Forest(EMPTY_TREE, virt)
  {}

  // ---- What a SET must avoid ----

  /**
   The request does not move a hardware-backed group to a virtual port, does not put it under itself
   or a group below it, and does not move a packed id to another port.
   */
  ghost predicate SetIsSound(t: Tree, virt: set<nat>, id: NasId, r: SgRequest, o: Outside) {
    SetStored(t, virt, id, r, o) ==>
      var next := Parsed(t.sgs[id], r);
      && (Formed(id) ==> next.port == SgPort(id))
      && (t.sgs[id].created ==> next.port !in virt && !AtOrBelow(t.sgs, next.parent, id))
  }

  /** A SET keeps the forest exactly when it is sound, for every request. */
  lemma SetSgKeepsForestExact(t: Tree, virt: set<nat>, id: NasId, r: SgRequest, o: Outside)
    requires Forest(t, virt)
    ensures Forest(SetSg(t, virt, id, r, o), virt) <==> SetIsSound(t, virt, id, r, o)
  {
    SetSgLinksExact(t, virt, id, r, o);
    if SetStored(t, virt, id, r, o) {
      SetSgPorts(t, virt, id, r, o);
      SetSgHwIds(t, virt, id, r, o);
      if t.sgs[id].created {
        var p := Parsed(t.sgs[id], r).parent;
        if p == id {
          assert Up(t.sgs, p, 0) == id;
        }
        if !SetBreaksLinks(t, virt, id, r, o) {
          SetSgRootedExact(t, virt, id, r, o);
        }
      } else {
        OtherSetRooted(t, virt, id, r, o);
      }
    } else {
      assert SetSg(t, virt, id, r, o) == t;
    }
  }

  lemma SetSgHwIds(t: Tree, virt: set<nat>, id: NasId, r: SgRequest, o: Outside)
    requires SetStored(t, virt, id, r, o) && HwIdsDistinct(t.queues, t.sgs)
    ensures HwIdsDistinct(SetSg(t, virt, id, r, o).queues, SetSg(t, virt, id, r, o).sgs)
  {
    var u := SetSg(t, virt, id, r, o);
    SetSgPorts(t, virt, id, r, o);
    SetSgShape(t, virt, id, r, o);
    forall s | s in t.sgs ensures u.sgs[s].ndi == t.sgs[s].ndi && u.sgs[s].created == t.sgs[s].created {
      if s != id {
        assert u.sgs[s].(children := t.sgs[s].children) == t.sgs[s];
      }
    }
    SameRowIds(t, u);
  }

  // ---- The other operations ----

  /** Rows may lose or change parents, children and attributes, but not hardware ids, ports or packed ids. */
  lemma SameRowIds(t: Tree, u: Tree)
    requires HwIdsDistinct(t.queues, t.sgs) && u.queues.Keys <= t.queues.Keys && u.sgs.Keys <= t.sgs.Keys
    requires forall k :: k in u.queues ==>
               u.queues[k].ndi == t.queues[k].ndi && u.queues[k].created == t.queues[k].created
    requires forall s :: s in u.sgs ==> u.sgs[s].ndi == t.sgs[s].ndi && u.sgs[s].created == t.sgs[s].created
    ensures HwIdsDistinct(u.queues, u.sgs)
  {}

  lemma SameHome(a: map<NasId, SchedGroup>, b: map<NasId, SchedGroup>)
    requires SgsAtHome(a) && b.Keys <= a.Keys && forall s :: s in b ==> b[s].port == a[s].port
    ensures SgsAtHome(b)
  {}

  lemma ListEditKeepsRows(a: map<NasId, SchedGroup>, b: map<NasId, SchedGroup>)
    requires b.Keys == a.Keys && forall s :: s in a ==> b[s].(children := a[s].children) == a[s]
    ensures forall s :: s in a ==> b[s].ndi == a[s].ndi && b[s].created == a[s].created && b[s].port == a[s].port
  {
    forall s | s in a ensures b[s].ndi == a[s].ndi && b[s].created == a[s].created && b[s].port == a[s].port {
      assert b[s].(children := a[s].children) == a[s];
    }
  }

  /** The hardware gives a new queue an id no backed queue has. */
  ghost predicate NewQueueNdi(t: Tree, ndi: NdiId) {
    ndi != NDI_NULL && forall k :: k in t.queues && t.queues[k].created ==> t.queues[k].ndi != ndi
  }

  ghost predicate NewSgNdi(t: Tree, ndi: NdiId) {
    ndi != NDI_NULL && forall s :: s in t.sgs && t.sgs[s].created ==> t.sgs[s].ndi != ndi
  }

  /** A create of a queue, which asks for no virtual port, keeps the forest unless it creates one there. */
  lemma CreateQueueKeepsForestExact(t: Tree, virt: set<nat>, key: Key, parent: Option<NasId>, o: Outside)
    requires Forest(t, virt) && NewQueueNdi(t, o.ndi)
    ensures var u := CreateQueue(t, key, parent, o);
            Forest(u, virt) <==> u == t || key.port !in virt
  {
    var u := CreateQueue(t, key, parent, o);
    if u != t {
      assert key in u.queues && u.queues[key].created;
      if key.port !in virt {
        CreateQueueKeeps(t, virt, key, parent, o);
        CreateQueueRooted(t, key, parent, o);
        AddedQueueRowIds(t, key, Queue(QueueIdOf(o.choice), parent.value, o.ndi, true, []), u);
      }
    }
  }

  lemma AddedQueueRowIds(t: Tree, key: Key, row: Queue, u: Tree)
    requires SgsAtHome(t.sgs) && HwIdsDistinct(t.queues, t.sgs) && NewQueueNdi(t, row.ndi)
    requires u.queues == t.queues[key := row] && u.sgs == AddChild(t.sgs, row.parent, row.id)
    ensures SgsAtHome(u.sgs) && HwIdsDistinct(u.queues, u.sgs)
  {
    ListEditKeepsRows(t.sgs, u.sgs);
    SameHome(t.sgs, u.sgs);
  }

  lemma SetQueueKeepsForest(t: Tree, virt: set<nat>, key: Key, parent: Option<NasId>, o: Outside)
    requires Forest(t, virt)
    ensures Forest(SetQueue(t, virt, key, parent, o), virt)
  {
    var u := SetQueue(t, virt, key, parent, o);
    SetQueueKeeps(t, virt, key, parent, o);
    SetQueueRooted(t, virt, key, parent, o);
    SetQueueShape(t, virt, key, parent, o);
    ListEditKeepsRows(t.sgs, u.sgs);
    SameHome(t.sgs, u.sgs);
    forall k | k in t.queues ensures u.queues[k].ndi == t.queues[k].ndi && u.queues[k].created == t.queues[k].created {
      assert u.queues[k].(parent := t.queues[k].parent) == t.queues[k];
    }
    SameRowIds(t, u);
  }

  lemma DeleteQueueKeepsForest(t: Tree, virt: set<nat>, key: Key, o: Outside)
    requires Forest(t, virt)
    ensures Forest(DeleteQueue(t, key, o), virt)
  {
    var u := DeleteQueue(t, key, o);
    DeleteQueueKeeps(t, virt, key, o);
    DeleteQueueRooted(t, key, o);
    if u != t {
      DelChildKeepsRows(t.sgs, t.queues[key].parent, t.queues[key].id);
      SameHome(t.sgs, u.sgs);
      SameRowIds(t, u);
    }
  }

  /** A generated id never has the shape of a packed one. */
  lemma GeneratedIsNotFormed(raw: nat)
    requires raw <= SG_ID_MAX
    ensures !Formed(SgIdOf(raw))
  {
    var id := SgIdOf(raw);
    if Formed(id) {
      FieldBounds(id);
      FormedIdTags(SgPort(id), SgLevel(id), SgIndex(id));
      GeneratedIdTags(raw);
      assert false;
    }
  }

  /** The same of a group. */
  lemma CreateSgKeepsForestExact(t: Tree, virt: set<nat>, r: SgRequest, o: Outside)
    requires Forest(t, virt) && NewSgNdi(t, o.ndi)
    ensures var u := CreateSg(t, r, o);
            Forest(u, virt) <==> u == t || Given(r.port, 0) !in virt
  {
    var u := CreateSg(t, r, o);
    if u != t {
      CreatedSgRow(t, r, o);
      if r.port.value !in virt {
        CreateSgKeeps(t, virt, r, o);
        CreateSgRooted(t, virt, r, o);
        CreateSgRows(t, r, o);
      }
    }
  }

  lemma CreatedSgRow(t: Tree, r: SgRequest, o: Outside)
    requires CreateSg(t, r, o) != t
    ensures r.port.Some? && exists s ::
              s in CreateSg(t, r, o).sgs && CreateSg(t, r, o).sgs[s].created
              && CreateSg(t, r, o).sgs[s].port == r.port.value
  {
    var id := SgIdOf(o.choice);
    assert id in CreateSg(t, r, o).sgs;
  }

  lemma CreateSgRows(t: Tree, r: SgRequest, o: Outside)
    requires QueueIdsOk(t.queues, t.queueIds) && SgIdsOk(t.sgs, t.sgIds)
    requires SgsAtHome(t.sgs) && HwIdsDistinct(t.queues, t.sgs) && NewSgNdi(t, o.ndi)
    ensures SgsAtHome(CreateSg(t, r, o).sgs) && HwIdsDistinct(CreateSg(t, r, o).queues, CreateSg(t, r, o).sgs)
  {
    var u := CreateSg(t, r, o);
    if u != t {
      var id := SgIdOf(o.choice);
      FreshSgId(t, o.choice);
      GeneratedIsNotFormed(o.choice);
      var row := SchedGroup(r.port.value, r.level.value, r.profile.value, r.maxChild.value,
                            r.parent.value, [], o.ndi, true);
      AddedGroupRows(t, id, row, u);
    }
  }

  lemma AddedGroupRows(t: Tree, id: NasId, row: SchedGroup, u: Tree)
    requires SgsAtHome(t.sgs) && HwIdsDistinct(t.queues, t.sgs) && !Formed(id) && id !in t.sgs && NewSgNdi(t, row.ndi)
    requires u.queues == t.queues && u.sgs == AddChild(t.sgs[id := row], row.parent, id)
    ensures SgsAtHome(u.sgs) && HwIdsDistinct(u.queues, u.sgs)
  {
    ListEditKeepsRows(t.sgs[id := row], u.sgs);
    AddedSgHome(t.sgs, id, row);
    SameHome(t.sgs[id := row], u.sgs);
    AddedSgHwIds(t, id, row);
    SameRowIds(t.(sgs := t.sgs[id := row]), u);
  }

  lemma AddedSgHome(sgs: map<NasId, SchedGroup>, id: NasId, row: SchedGroup)
    requires SgsAtHome(sgs) && !Formed(id)
    ensures SgsAtHome(sgs[id := row])
  {}

  lemma AddedSgHwIds(t: Tree, id: NasId, row: SchedGroup)
    requires HwIdsDistinct(t.queues, t.sgs) && id !in t.sgs && NewSgNdi(t, row.ndi)
    ensures HwIdsDistinct(t.queues, t.sgs[id := row])
  {}

  lemma DeleteSgKeepsForest(t: Tree, virt: set<nat>, id: NasId, o: Outside)
    requires Forest(t, virt)
    ensures Forest(DeleteSg(t, id, o), virt)
  {
    var u := DeleteSg(t, id, o);
    DeleteSgKeeps(t, virt, id, o);
    DeleteSgRooted(t, virt, id, o);
    if u != t {
      DelChildKeepsRows(t.sgs, t.sgs[id].parent, id);
      SameHome(t.sgs, u.sgs);
      SameRowIds(t, u);
    }
  }

  lemma DelChildKeepsRows(sgs: map<NasId, SchedGroup>, p: NasId, c: NasId)
    ensures var after := DelChild(sgs, p, c);
            after.Keys == sgs.Keys
            && forall s :: s in sgs ==>
                 after[s].ndi == sgs[s].ndi && after[s].created == sgs[s].created && after[s].port == sgs[s].port
  {}

  /** A port deletion, after which the port number may come back as either kind. */
  lemma DeletePortKeepsForestExact(t: Tree, virt: set<nat>, port: nat, virt': set<nat>)
    requires Forest(t, virt) && virt' - {port} == virt - {port}
    ensures Forest(DeletePort(t, port), virt') <==> EdgesInside(t, port)
  {
    DeletePortKeepsIffInside(t, virt, port);
    DeletedPortKind(t, virt, port, virt');
    if EdgesInside(t, port) {
      DeletePortRooted(t, port);
      SameHome(t.sgs, DeletePort(t, port).sgs);
      SameRowIds(t, DeletePort(t, port));
    }
  }

  lemma DeletedPortKind(t: Tree, virt: set<nat>, port: nat, virt': set<nat>)
    requires virt' - {port} == virt - {port}
    ensures OnRealPorts(DeletePort(t, port), virt') <==> OnRealPorts(DeletePort(t, port), virt)
  {
    forall p: nat | p != port ensures p in virt' <==> p in virt {
      assert p in virt' - {port} <==> p in virt - {port};
    }
  }

  // ---- Bring-up ----

  /** Every group ranks below the group it records as hardware parent. */
  ghost predicate Ranks(groups: seq<HwSg>, rank: seq<nat>, bound: nat) {
    && |rank| == |groups| && (forall i :: 0 <= i < |rank| ==> rank[i] <= bound)
    && forall i, j :: 0 <= i < |groups| && 0 <= j < |groups| && groups[i].parent == groups[j].ndi ==> rank[i] < rank[j]
  }

  /** The recorded hardware parents go round in no circle. */
  ghost predicate HwAcyclic(groups: seq<HwSg>) {
    exists rank, bound :: Ranks(groups, rank, bound)
  }

  /** Old nodes keep their paths. */
  lemma {:induction false} OldPath(t: SgTable, u: SgTable, s: NasId, n: nat)
    requires 0 !in t && 0 !in u && (s == 0 || s in t)
    requires forall x :: x in t ==> ParentOf(u, x) == ParentOf(t, x) && Resolves(t, ParentOf(t, x))
    ensures Up(u, s, n) == Up(t, s, n)
    decreases n
  {
    if n > 0 {
      OldPath(t, u, ParentOf(t, s), n - 1);
    }
  }

  /** Where the groups created by a bring-up lead: to an older group, to none, or to one of higher rank. */
  ghost predicate LeadsOn(t: SgTable, u: SgTable, ids: seq<Option<NasId>>, rank: seq<nat>, i: nat)
    requires i < |ids| == |rank|
  {
    ids[i].Some? ==>
      var p := ParentOf(u, ids[i].value);
      p == 0 || p in t || exists j :: 0 <= j < |ids| && rank[i] < rank[j] && ids[j] == Some(p)
  }

  lemma {:induction false} CreatedReachesRoot(t: SgTable, u: SgTable, ids: seq<Option<NasId>>,
                                              rank: seq<nat>, bound: nat, i: nat)
    requires i < |ids| == |rank| && ids[i].Some? && (forall k :: 0 <= k < |ids| ==> LeadsOn(t, u, ids, rank, k))
    requires forall k :: 0 <= k < |rank| ==> rank[k] <= bound
    requires 0 !in u && forall s :: s in t ==> ReachesRoot(u, s)
    ensures ReachesRoot(u, ids[i].value)
    decreases bound - rank[i]
  {
    var p := ParentOf(u, ids[i].value);
    assert LeadsOn(t, u, ids, rank, i);
    if p == 0 {
      assert Up(u, p, 0) == 0;
    } else if p !in t {
      var j :| 0 <= j < |ids| && rank[i] < rank[j] && ids[j] == Some(p);
      CreatedReachesRoot(t, u, ids, rank, bound, j);
    }
    var n: nat :| Up(u, p, n) == 0;
    assert Up(u, ids[i].value, n + 1) == 0;
  }

  lemma BroughtUpRooted(t: SgTable, u: SgTable, ids: seq<Option<NasId>>, rank: seq<nat>, bound: nat)
    requires Rooted(t) && 0 !in t && 0 !in u
    requires forall x :: x in t ==> ParentOf(u, x) == ParentOf(t, x) && Resolves(t, ParentOf(t, x))
    requires |rank| == |ids| && forall k :: 0 <= k < |ids| ==> LeadsOn(t, u, ids, rank, k)
    requires forall k :: 0 <= k < |rank| ==> rank[k] <= bound
    requires forall s :: s in u ==> s in t || Some(s) in ids
    ensures Rooted(u)
  {
    forall s | s in t ensures ReachesRoot(u, s) {
      var n: nat :| Up(t, s, n) == 0;
      OldPath(t, u, s, n);
    }
    forall s | s in u && s !in t ensures ReachesRoot(u, s) {
      var i :| 0 <= i < |ids| && ids[i] == Some(s);
      CreatedReachesRoot(t, u, ids, rank, bound, i);
    }
  }

  /** One created group after the linking. */
  lemma CreatedLeadsOn(t: Tree, port: nat, groups: seq<HwSg>, b: Course, u: Tree, rank: seq<nat>, bound: nat, i: nat)
    requires GroupsRead(t, port, groups, b) && i < |groups| && b.tr.ids[i].Some? && !IsQueueId(b.tr.ids[i].value)
    requires SameRows(b.base, u) && Ranks(groups, rank, bound)
    requires (forall c :: c in b.order <==> c in Listed(b)) && Exact(b.base, u, b.walk, Listed(b), b.order)
    ensures LeadsOn(t.sgs, u.sgs, b.tr.ids, rank, i)
  {
    TraceGrows(b.mid.queues, port, b.tr, |groups|, |groups|);
    var id := b.tr.ids[i].value;
    assert id in b.groupParents && Listed(b)[id] == groups[i].parent;
    var p := u.sgs[id].parent;
    assert Owns(b.base.sgs, groups[i].parent, p);
    if p != 0 && p !in t.sgs {
      assert CreatedBefore(b.tr.ids, |groups|, p);
      var j :| 0 <= j < |groups| && b.tr.ids[j] == Some(p);
      assert b.base.sgs[p] == FreshRow(port, groups[j]);
    }
  }

  /** An older group is not listed, so the linking leaves its parent alone. */
  lemma OldParentsStay(t: Tree, port: nat, groups: seq<HwSg>, b: Course, u: Tree)
    requires GroupsRead(t, port, groups, b) && SameRows(b.base, u)
    requires (forall c :: c in b.order <==> c in Listed(b)) && Exact(b.base, u, b.walk, Listed(b), b.order)
    requires forall s :: s in t.sgs ==> s !in b.queueParents
    ensures forall s :: s in t.sgs ==> ParentOf(u.sgs, s) == ParentOf(t.sgs, s)
  {
    TraceGrows(b.mid.queues, port, b.tr, |groups|, |groups|);
    forall c | c in b.groupParents ensures c !in t.sgs {
      assert CreatedBefore(b.tr.ids, |groups|, c);
      var j :| 0 <= j < |groups| && b.tr.ids[j] == Some(c);
      TraceGrows(b.mid.queues, port, b.tr, |groups|, j);
      StepIsNew(b.mid.queues, port, b.tr, |groups|, j);
    }
    forall s | s in t.sgs ensures ParentOf(u.sgs, s) == ParentOf(t.sgs, s) {
      assert s !in b.order;
      assert u.sgs[s].(parent := b.base.sgs[s].parent, children := b.base.sgs[s].children) == b.base.sgs[s];
    }
  }

  lemma GroupsBroughtUpRooted(t: Tree, virt: set<nat>, port: nat, report: seq<HwQueue>, groupReport: seq<HwSg>,
                              b: Course, u: Tree)
    requires Forest(t, virt) && port !in virt && SanePort(t.queues, t.sgs, port, report, groupReport)
    requires HwAcyclic(Reversed(groupReport))
    requires QueuesRead(t, b.mid, port, report, b.read, b.queueParents) && GroupsRead(t, port, Reversed(groupReport), b)
    requires AllLinked(b, u)
    ensures Rooted(u.sgs)
  {
    var groups := Reversed(groupReport);
    LinkedUp(t, virt, port, report, groupReport, b, u);
    ListedQueuesAreNoGroups(t, virt, port, report, b);
    forall i | 0 <= i < |groups| && b.tr.ids[i].Some? ensures !IsQueueId(b.tr.ids[i].value) {
      CreatedIsSgId(t, port, groups, b, i);
    }
    var rank, bound :| Ranks(groups, rank, bound);
    LinkedGroupsRooted(t, port, groups, b, u, rank, bound);
  }

  lemma LinkedGroupsRooted(t: Tree, port: nat, groups: seq<HwSg>, b: Course, u: Tree, rank: seq<nat>, bound: nat)
    requires GroupsRead(t, port, groups, b) && SameRows(b.base, u) && Ranks(groups, rank, bound)
    requires (forall c :: c in b.order <==> c in Listed(b)) && Exact(b.base, u, b.walk, Listed(b), b.order)
    requires forall s :: s in t.sgs ==> s !in b.queueParents
    requires forall i :: 0 <= i < |groups| && b.tr.ids[i].Some? ==> !IsQueueId(b.tr.ids[i].value)
    requires Rooted(t.sgs) && 0 !in t.sgs && 0 !in u.sgs && forall s :: s in t.sgs ==>
               Resolves(t.sgs, ParentOf(t.sgs, s))
    ensures Rooted(u.sgs)
  {
    OldParentsStay(t, port, groups, b, u);
    AllLeadOn(t, port, groups, b, u, rank, bound);
    OldOrCreated(t, port, groups, b, u);
    BroughtUpRooted(t.sgs, u.sgs, b.tr.ids, rank, bound);
  }

  lemma AllLeadOn(t: Tree, port: nat, groups: seq<HwSg>, b: Course, u: Tree, rank: seq<nat>, bound: nat)
    requires GroupsRead(t, port, groups, b) && SameRows(b.base, u) && Ranks(groups, rank, bound)
    requires (forall c :: c in b.order <==> c in Listed(b)) && Exact(b.base, u, b.walk, Listed(b), b.order)
    requires forall i :: 0 <= i < |groups| && b.tr.ids[i].Some? ==> !IsQueueId(b.tr.ids[i].value)
    ensures forall i :: 0 <= i < |groups| ==> LeadsOn(t.sgs, u.sgs, b.tr.ids, rank, i)
  {
    forall i | 0 <= i < |groups| ensures LeadsOn(t.sgs, u.sgs, b.tr.ids, rank, i) {
      if b.tr.ids[i].Some? {
        CreatedLeadsOn(t, port, groups, b, u, rank, bound, i);
      }
    }
  }

  lemma OldOrCreated(t: Tree, port: nat, groups: seq<HwSg>, b: Course, u: Tree)
    requires GroupsRead(t, port, groups, b) && u.sgs.Keys == b.base.sgs.Keys
    ensures forall s :: s in u.sgs ==> s in t.sgs || Some(s) in b.tr.ids
  {
    TraceGrows(b.mid.queues, port, b.tr, |groups|, |groups|);
    forall s | s in u.sgs && s !in t.sgs ensures Some(s) in b.tr.ids {
      assert CreatedBefore(b.tr.ids, |groups|, s);
    }
  }

  lemma ListedQueuesAreNoGroups(t: Tree, virt: set<nat>, port: nat, report: seq<HwQueue>, b: Course)
    requires WellLinked(t, virt) && port !in virt && QueuesRead(t, b.mid, port, report, b.read, b.queueParents)
    ensures forall s :: s in t.sgs ==> s !in b.queueParents
  {
    ReadKeepsLinked(t, virt, b.mid, port, report, b.read, b.queueParents);
    forall c | c in b.queueParents ensures c !in t.sgs {
      var k :| k in b.mid.queues && k !in t.queues && b.mid.queues[k].id == c;
    }
  }

  lemma BringUpKeepsForest(t: Tree, virt: set<nat>, port: nat, queueReport: seq<HwQueue>, groupReport: seq<HwSg>,
                           rc: bool, b: Course, u: Tree)
    requires Forest(t, virt) && port !in virt
    requires NoHqos(t, port) ==>
               SanePort(t.queues, t.sgs, port, queueReport, groupReport) && HwAcyclic(Reversed(groupReport))
    requires BringsUp(t, port, queueReport, groupReport, rc, b, u)
    ensures Forest(u, virt)
  {
    BringUpKeeps(t, virt, port, queueReport, groupReport, rc, b, u);
    if NoHqos(t, port) && b.read == |queueReport| && groupReport != [] {
      GroupsBroughtUpRooted(t, virt, port, queueReport, groupReport, b, u);
    }
  }

  // ---- Virtual ports ----

  /** Rows without hardware side are roots and have no hardware id. */
  lemma UnbackedKeepsRest(t: Tree, u: Tree)
    requires Rooted(t.sgs) && HwIdsDistinct(t.queues, t.sgs) && OnlyUnbacked(t, u)
    ensures Rooted(u.sgs) && HwIdsDistinct(u.queues, u.sgs)
  {
    forall x ensures ParentOf(u.sgs, x) == ParentOf(t.sgs, x) {}
    forall s | s in u.sgs ensures ReachesRoot(u.sgs, s) {
      if s in t.sgs {
        var n: nat :| Up(t.sgs, s, n) == 0;
        SameUp(t.sgs, u.sgs, s, n);
      } else {
        assert Up(u.sgs, s, 1) == 0;
      }
    }
  }

  /** Creating a virtual port keeps the forest, however far it gets. */
  lemma CreateVpKeepsForest(t: Tree, virt: set<nat>, sh: VpQueues.Shape, port: nat, u: Tree)
    requires Forest(t, virt) && VpTables.PackableShape(port, sh) && CreatesVp(t, u, sh, port)
    ensures Forest(u, virt)
  {
    CreatesVpKeepsLinks(t, virt, u, sh, port);
    CreatesVpKeepsIds(t, u, sh, port);
    CreatesVpOnlyUnbacked(t, u, sh, port);
    UnbackedKeepsRest(t, u);
  }

  lemma UnbindKeepsRest(t: Tree, port: nat, leaf: nat, u: Tree)
    requires Rooted(t.sgs) && HwIdsDistinct(t.queues, t.sgs) && Unbinds(t, u, port, leaf)
    requires NothingHeld(t, port, leaf)
    ensures Rooted(u.sgs) && HwIdsDistinct(u.queues, u.sgs)
  {
    forall x ensures ParentOf(u.sgs, x) == ParentOf(t.sgs, x) {}
    SameParentsRooted(t.sgs, u.sgs);
  }

  /**
   A dissociation, after which the port is virtual, keeps the forest exactly when none of the nodes it
   clears had a parent and no other group of the port is hardware-backed.
   */
  lemma UnbindKeepsForestExact(t: Tree, virt: set<nat>, port: nat, leaf: nat, u: Tree)
    requires Forest(t, virt) && Unbinds(t, u, port, leaf)
    ensures Forest(u, virt + {port}) <==> NothingHeld(t, port, leaf) && UpperUnbacked(t, port, leaf)
  {
    UnbindLinksExact(t, virt, port, leaf, u);
    UnbindPortsExact(t, virt, port, leaf, u);
    UnbindKeepsIds(t, port, leaf, u);
    if NothingHeld(t, port, leaf) {
      UnbindKeepsRest(t, port, leaf, u);
    }
  }

  /** So dissociating a port that is virtual already is always safe. */
  lemma UnbindVirtualKeepsForest(t: Tree, virt: set<nat>, port: nat, leaf: nat, u: Tree)
    requires Forest(t, virt) && port in virt && Unbinds(t, u, port, leaf)
    ensures Forest(u, virt)
  {
    UnbindKeepsForestExact(t, virt, port, leaf, u);
    assert virt + {port} == virt;
  }

  /**
   An association, after which the port is physical, keeps the forest exactly when nothing it binds had a
   parent.
   */
  lemma BindKeepsForestExact(t: Tree, virt: set<nat>, port: nat, leaf: nat, u: Tree)
    requires Forest(t, virt) && Binds(t, u, port, leaf) && HwIdsDistinct(u.queues, u.sgs)
    ensures Forest(u, virt - {port}) <==> NothingPreset(t, u)
  {
    BindLinksExact(t, virt, port, leaf, u);
    BindKeepsIds(t, port, leaf, u);
    if NothingPreset(t, u) {
      forall x ensures ParentOf(u.sgs, x) == ParentOf(t.sgs, x) {}
      SameParentsRooted(t.sgs, u.sgs);
    }
  }
}
