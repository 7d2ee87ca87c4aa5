/**
 Binding a virtual port to a physical one: its queues and its groups right above them get their hardware
 side, but no child list is edited. When that is safe, and how the sets that follow repair it.
 */
module HqosBinding {
  import opened Wrappers
  import opened NasIds
  import opened IdGenerator
  import opened OrderedKeys
  import opened QosRows
  import opened QosSwitches
  import opened HqosForest
  import opened HqosSteps
  import opened HqosOperations
  import opened HqosIndex
  import opened HqosQueues
  import opened HqosVirtual

  // ---- What an association may do ----

  ghost predicate BoundQueue(row: Queue, after: Queue) {
    after == row.(ndi := after.ndi, created := true, shadows := after.shadows)
  }

  ghost predicate BoundGroup(row: SchedGroup, after: SchedGroup) {
    after == row.(ndi := after.ndi, created := true, maxChild := after.maxChild)
  }

  /**
   Some of the port's queues and groups of the leaf level, by row and by id, get their hardware side,
   and nothing else changes.
   */
  ghost predicate Binds(t: Tree, u: Tree, port: nat, leaf: nat) {
    && u.queueIds == t.queueIds && u.sgIds == t.sgIds
    && u.queues.Keys == t.queues.Keys && u.sgs.Keys == t.sgs.Keys
    && (forall k :: k in t.queues ==>
          u.queues[k] == t.queues[k] || (k.port == port && BoundQueue(t.queues[k], u.queues[k])))
    && (forall s :: s in t.sgs ==>
          u.sgs[s] == t.sgs[s]
          || (t.sgs[s].port == port && t.sgs[s].level == leaf && SgLevel(s) == leaf && BoundGroup(t.sgs[s], u.sgs[s])))
  }

  lemma BindsTransitive(t: Tree, u: Tree, v: Tree, port: nat, leaf: nat)
    requires Binds(t, u, port, leaf) && Binds(u, v, port, leaf)
    ensures Binds(t, v, port, leaf)
  {}

  /** No node that is bound anew has a parent. */
  ghost predicate NothingPreset(t: Tree, u: Tree)
    requires u.queues.Keys == t.queues.Keys && u.sgs.Keys == t.sgs.Keys
  {
    && (forall k :: k in t.queues && !t.queues[k].created && u.queues[k].created ==> t.queues[k].parent == 0)
    && (forall s :: s in t.sgs && !t.sgs[s].created && u.sgs[s].created ==> t.sgs[s].parent == 0)
  }

  lemma BindSameChildren(t: Tree, port: nat, leaf: nat, u: Tree, c: NasId, q: NasId)
    requires Binds(t, u, port, leaf) && NothingPreset(t, u) && q != 0
    ensures Child(u, c, q) <==> Child(t, c, q)
  {
    if QueueChild(t, c, q) {
      var k :| k in t.queues && t.queues[k].id == c && t.queues[k].created && t.queues[k].parent == q;
      assert u.queues[k].id == c && u.queues[k].created && u.queues[k].parent == q;
    }
    if QueueChild(u, c, q) {
      var k :| k in u.queues && u.queues[k].id == c && u.queues[k].created && u.queues[k].parent == q;
      assert t.queues[k].id == c && t.queues[k].created && t.queues[k].parent == q;
    }
  }

  /** A queue bound under a parent is missing from that parent's list, or has no parent to be listed by. */
  lemma BoundQueueUnlisted(t: Tree, port: nat, leaf: nat, u: Tree, k: Key)
    requires Links(t) && Binds(t, u, port, leaf)
    requires k in t.queues && !t.queues[k].created && u.queues[k].created && t.queues[k].parent != 0
    ensures !Links(u)
  {
    var p, c := t.queues[k].parent, t.queues[k].id;
    assert u.queues[k].parent == p && u.queues[k].id == c;
    if p in t.sgs {
      assert ListOk(t, p) && !QueueChild(t, c, p) && c !in t.sgs[p].children;
      assert u.sgs[p].children == t.sgs[p].children && Child(u, c, p);
      assert !ListOk(u, p);
    }
  }

  lemma BoundGroupUnlisted(t: Tree, port: nat, leaf: nat, u: Tree, s: NasId)
    requires Links(t) && Binds(t, u, port, leaf)
    requires s in t.sgs && !t.sgs[s].created && u.sgs[s].created && t.sgs[s].parent != 0
    ensures !Links(u)
  {
    var p := t.sgs[s].parent;
    assert u.sgs[s].parent == p;
    if p in t.sgs {
      assert ListOk(t, p) && !QueueChild(t, s, p) && s !in t.sgs[p].children;
      assert u.sgs[p].children == t.sgs[p].children && SgChild(u, s, p);
      assert !ListOk(u, p);
    }
  }

  /**
   An association, after which the port is physical, keeps the tree well linked exactly when nothing it
   binds had a parent.
   */
  lemma BindLinksExact(t: Tree, virt: set<nat>, port: nat, leaf: nat, u: Tree)
    requires WellLinked(t, virt) && Binds(t, u, port, leaf)
    ensures WellLinked(u, virt - {port}) <==> NothingPreset(t, u)
  {
    if NothingPreset(t, u) {
      BindKeepsLists(t, port, leaf, u);
      BindKeepsParents(t, virt, port, leaf, u);
      BindKeepsIds(t, port, leaf, u);
      IdsStayApart(u);
    } else {
      if k :| k in t.queues && !t.queues[k].created && u.queues[k].created && t.queues[k].parent != 0 {
        BoundQueueUnlisted(t, port, leaf, u, k);
      } else {
        var s :| s in t.sgs && !t.sgs[s].created && u.sgs[s].created && t.sgs[s].parent != 0;
        BoundGroupUnlisted(t, port, leaf, u, s);
      }
    }
  }

  lemma BindKeepsLists(t: Tree, port: nat, leaf: nat, u: Tree)
    requires Links(t) && Binds(t, u, port, leaf) && NothingPreset(t, u)
    ensures ListsMatch(u)
  {
    forall q | q in u.sgs ensures ListOk(u, q) {
      assert ListOk(t, q) && u.sgs[q].children == t.sgs[q].children;
      forall c ensures Child(u, c, q) <==> Child(t, c, q) {
        BindSameChildren(t, port, leaf, u, c, q);
      }
    }
  }

  lemma BindKeepsParents(t: Tree, virt: set<nat>, port: nat, leaf: nat, u: Tree)
    requires Links(t) && OnRealPorts(t, virt) && Binds(t, u, port, leaf) && NothingPreset(t, u)
    ensures ParentsExist(u) && OnRealPorts(u, virt - {port})
  {}

  lemma BindKeepsIds(t: Tree, port: nat, leaf: nat, u: Tree)
    requires TreeIdsOk(t) && Binds(t, u, port, leaf)
    ensures TreeIdsOk(u) && u.sgs.Keys == t.sgs.Keys && (SgsAtHome(t.sgs) ==> SgsAtHome(u.sgs))
  {
    forall k | k in t.queues ensures u.queues[k].id == t.queues[k].id {}
    SameIdsOk(t, u);
    forall s | s in t.sgs ensures u.sgs[s].port == t.sgs[s].port {}
  }

  // ---- How the sets that follow repair the lists ----

  /** The tree is linked, but for the pending queues: they are in no list. */
  ghost predicate LinkedBut(t: Tree, pending: set<NasId>) {
    && IdsDistinct(t)
    && (forall k :: k in t.queues && t.queues[k].created && t.queues[k].id !in pending ==>
          Resolves(t.sgs, t.queues[k].parent))
    && (forall s :: s in t.sgs && t.sgs[s].created ==> Resolves(t.sgs, t.sgs[s].parent) && t.sgs[s].parent != s)
    && forall q :: q in t.sgs ==> ListOkBut(t, q, pending)
  }

  ghost predicate ListOkBut(t: Tree, q: NasId, pending: set<NasId>)
    requires q in t.sgs
  {
    NoDup(t.sgs[q].children) && forall c :: c in t.sgs[q].children <==> Child(t, c, q) && c !in pending
  }

  lemma NonePending(t: Tree)
    ensures LinkedBut(t, {}) <==> Links(t)
  {
    if LinkedBut(t, {}) {
      forall q | q in t.sgs ensures ListOk(t, q) {
        assert ListOkBut(t, q, {});
      }
    }
    if Links(t) {
      forall q | q in t.sgs ensures ListOkBut(t, q, {}) {
        assert ListOk(t, q);
      }
    }
  }

  /** The ids of the queues bound anew. */
  ghost function NewlyBound(t: Tree, u: Tree): set<NasId>
    requires u.queues.Keys == t.queues.Keys
  {
    set k | k in t.queues && !t.queues[k].created && u.queues[k].created :: t.queues[k].id
  }

  ghost predicate GroupsUnlinked(t: Tree, u: Tree)
    requires u.sgs.Keys == t.sgs.Keys
  {
    forall s :: s in t.sgs && !t.sgs[s].created && u.sgs[s].created ==> t.sgs[s].parent == 0
  }

  /** What an association leaves: linked, but for the queues it bound. */
  lemma BindLinkedBut(t: Tree, port: nat, leaf: nat, u: Tree)
    requires Links(t) && Binds(t, u, port, leaf) && GroupsUnlinked(t, u)
    ensures LinkedBut(u, NewlyBound(t, u))
  {
    var pending := NewlyBound(t, u);
    forall q | q in u.sgs ensures ListOkBut(u, q, pending) {
      assert ListOk(t, q) && u.sgs[q].children == t.sgs[q].children;
      forall c ensures Child(t, c, q) <==> Child(u, c, q) && c !in pending {
        BoundChildren(t, port, leaf, u, c, q);
      }
    }
  }

  lemma BoundChildren(t: Tree, port: nat, leaf: nat, u: Tree, c: NasId, q: NasId)
    requires IdsDistinct(t) && Binds(t, u, port, leaf) && GroupsUnlinked(t, u) && q != 0
    ensures Child(t, c, q) <==> Child(u, c, q) && c !in NewlyBound(t, u)
  {
    if QueueChild(t, c, q) {
      var k :| k in t.queues && t.queues[k].id == c && t.queues[k].created && t.queues[k].parent == q;
      assert u.queues[k].id == c && u.queues[k].created && u.queues[k].parent == q;
    }
    if QueueChild(u, c, q) && c !in NewlyBound(t, u) {
      var k :| k in u.queues && u.queues[k].id == c && u.queues[k].created && u.queues[k].parent == q;
      assert t.queues[k].id == c && t.queues[k].created && t.queues[k].parent == q;
    }
  }

  /** An accepted SET of a queue's parent lists it, pending or not. */
  lemma SetQueueRelinks(t: Tree, virt: set<nat>, key: Key, p: NasId, o: Outside, pending: set<NasId>)
    requires LinkedBut(t, pending) && key in t.queues && t.queues[key].created && key.port !in virt
    requires o.accepts && Resolves(t.sgs, p)
    ensures LinkedBut(SetQueue(t, virt, key, Some(p), o), pending - {t.queues[key].id})
  {
    var prior, u := t.queues[key], SetQueue(t, virt, key, Some(p), o);
    var id := prior.id;
    RelinkShape(t.sgs, prior.parent, p, id);
    MovedQueue(t, key, p, u);
    assert t.queues == t.queues[key := prior.(parent := prior.parent)];
    MovedQueue(t, key, prior.parent, t);
    forall q | q in u.sgs ensures ListOkBut(u, q, pending - {id}) {
      assert ListOkBut(t, q, pending);
      WithoutFacts(t.sgs[q].children, id);
      ListRelinkedBut(t, u, id, p, q, pending);
    }
    RelinkedRest(t, key, p, u, pending);
  }

  lemma ListRelinkedBut(t: Tree, u: Tree, id: NasId, p: NasId, q: NasId, pending: set<NasId>)
    requires q in t.sgs && q in u.sgs && ListOkBut(t, q, pending) && ChildrenMove(t, u, id, Some(p))
    requires u.sgs[q].children == Without(t.sgs[q].children, id) + (if p == q then [id] else [])
    ensures ListOkBut(u, q, pending - {id})
  {
    var l, l' := t.sgs[q].children, u.sgs[q].children;
    WithoutFacts(l, id);
    AppendNoDup(Without(l, id), id);
    assert p != q ==> l' == Without(l, id);
    forall c ensures c in l' <==> Child(u, c, q) && c !in pending - {id} {
      assert c in l <==> Child(t, c, q) && c !in pending;
      assert c in l' <==> (c in l && c != id) || (c == id && p == q);
      assert Child(u, c, q) <==> if c == id then p == q else Child(t, c, q);
    }
  }

  lemma RelinkedRest(t: Tree, key: Key, p: NasId, u: Tree, pending: set<NasId>)
    requires LinkedBut(t, pending) && key in t.queues && Resolves(t.sgs, p)
    requires u.queues == t.queues[key := t.queues[key].(parent := p)] && u.sgs.Keys == t.sgs.Keys
    requires forall s :: s in t.sgs ==> u.sgs[s].(children := t.sgs[s].children) == t.sgs[s]
    ensures IdsDistinct(u)
    ensures forall k :: k in u.queues && u.queues[k].created && u.queues[k].id !in pending - {t.queues[key].id} ==>
              Resolves(u.sgs, u.queues[k].parent)
    ensures forall s :: s in u.sgs && u.sgs[s].created ==> Resolves(u.sgs, u.sgs[s].parent) && u.sgs[s].parent != s
  {
    forall s | s in t.sgs ensures u.sgs[s].created == t.sgs[s].created && u.sgs[s].parent == t.sgs[s].parent {
      assert u.sgs[s].(children := t.sgs[s].children) == t.sgs[s];
    }
  }

  datatype QueueSet = QueueSet(key: Key, parent: NasId, o: Outside)

  /** The sets replayed, in order. */
  function Replayed(t: Tree, virt: set<nat>, sets: seq<QueueSet>): Tree
    decreases |sets|
  {
    if sets == [] then t
    else Replayed(SetQueue(t, virt, sets[0].key, Some(sets[0].parent), sets[0].o), virt, sets[1..])
  }

  /** Every set is of a bound queue and is accepted, with a parent that exists. */
  ghost predicate Replayable(t: Tree, virt: set<nat>, sets: seq<QueueSet>) {
    forall i :: 0 <= i < |sets| ==>
      var r := sets[i];
      && r.key in t.queues && t.queues[r.key].created && r.key.port !in virt && r.o.accepts && Resolves(t.sgs, r.parent)
  }

  ghost function SetIds(t: Tree, sets: seq<QueueSet>): set<NasId> {
    set i | 0 <= i < |sets| && sets[i].key in t.queues :: t.queues[sets[i].key].id
  }

  lemma {:induction false} ReplayRelinks(t: Tree, virt: set<nat>, sets: seq<QueueSet>, pending: set<NasId>)
    requires LinkedBut(t, pending) && Replayable(t, virt, sets)
    ensures LinkedBut(Replayed(t, virt, sets), pending - SetIds(t, sets))
    decreases |sets|
  {
    if sets == [] {
      assert pending - SetIds(t, sets) == pending;
    } else {
      var r, rest := sets[0], sets[1..];
      var u := SetQueue(t, virt, r.key, Some(r.parent), r.o);
      SetQueueRelinks(t, virt, r.key, r.parent, r.o, pending);
      SetQueueRow(t, virt, r.key, r.parent, r.o);
      RelinkShape(t.sgs, t.queues[r.key].parent, r.parent, t.queues[r.key].id);
      forall i | 0 <= i < |rest|
        ensures rest[i] == sets[i + 1] && rest[i].key in u.queues && u.queues[rest[i].key].created {}
      ReplayRelinks(u, virt, rest, pending - {t.queues[r.key].id});
      SetIdsStep(t, u, sets);
      assert pending - {t.queues[r.key].id} - SetIds(u, rest) == pending - SetIds(t, sets);
    }
  }

  lemma SetIdsStep(t: Tree, u: Tree, sets: seq<QueueSet>)
    requires sets != [] && sets[0].key in t.queues && u.queues.Keys == t.queues.Keys
    requires forall k :: k in t.queues ==> u.queues[k].id == t.queues[k].id
    ensures SetIds(t, sets) == {t.queues[sets[0].key].id} + SetIds(u, sets[1..])
  {
    forall id | id in SetIds(t, sets) ensures id in {t.queues[sets[0].key].id} + SetIds(u, sets[1..]) {
      var i :| 0 <= i < |sets| && sets[i].key in t.queues && t.queues[sets[i].key].id == id;
      if i > 0 {
        assert sets[1..][i - 1] == sets[i];
      }
    }
    forall id | id in SetIds(u, sets[1..]) ensures id in SetIds(t, sets) {
      var i :| 0 <= i < |sets[1..]| && sets[1..][i].key in u.queues && u.queues[sets[1..][i].key].id == id;
      assert sets[i + 1] == sets[1..][i];
    }
  }

  /**
   An association followed by an accepted set of the parent of every queue it bound, in any order and
   with any other such sets, leaves the tree linked, although the association alone may not.
   */
  lemma ReplayRepairsAssociation(t: Tree, virt: set<nat>, port: nat, leaf: nat, u: Tree, sets: seq<QueueSet>)
    requires WellLinked(t, virt) && Binds(t, u, port, leaf) && GroupsUnlinked(t, u)
    requires Replayable(u, virt - {port}, sets) && NewlyBound(t, u) <= SetIds(u, sets)
    ensures Links(Replayed(u, virt - {port}, sets))
  {
    BindLinkedBut(t, port, leaf, u);
    ReplayRelinks(u, virt - {port}, sets, NewlyBound(t, u));
    assert NewlyBound(t, u) - SetIds(u, sets) == {};
    NonePending(Replayed(u, virt - {port}, sets));
  }

  // ---- The associations on the switch ----

  /** The last of the first n reported queues with this type and number. */
  function LastReported(report: seq<HwQueue>, n: nat, key: Key): Option<HwQueue>
    requires n <= |report|
  {
    if n == 0 then None
    else if report[n - 1].kind == key.kind && report[n - 1].index == key.local then Some(report[n - 1])
    else LastReported(report, n - 1, key)
  }

  function BoundTo(row: Queue, hw: Option<HwQueue>): Queue {
    match hw
    case Some(q) => row.(ndi := q.ndi, created := true, shadows := q.shadows)
    case None => row
  }

  /** Each queue of the port is bound to the last of the first n reported queues with its type and number, if any. */
  ghost predicate QueuesBound(before: QueueTable, after: QueueTable, port: nat, report: seq<HwQueue>, n: nat)
    requires n <= |report|
  {
    && after.Keys == before.Keys
    && forall k :: k in before ==>
         after[k] == if k.port == port then BoundTo(before[k], LastReported(report, n, k)) else before[k]
  }

  lemma BindOneQueue(before: QueueTable, mid: QueueTable, after: QueueTable, port: nat, report: seq<HwQueue>, n: nat)
    requires n < |report| && QueuesBound(before, mid, port, report, n)
    requires var key := Key(port, report[n].index, report[n].kind);
             after == if key in mid then mid[key := BoundTo(mid[key], Some(report[n]))] else mid
    ensures QueuesBound(before, after, port, report, n + 1)
  {
    var key := Key(port, report[n].index, report[n].kind);
    forall k | k in before
      ensures after[k] == if k.port == port then BoundTo(before[k], LastReported(report, n + 1, k)) else before[k]
    {
      assert k.port == port ==> (k == key <==> report[n].kind == k.kind && report[n].index == k.local);
    }
  }

  /**
   nas_qos_port_queue_association, up to the stored configuration it then replays: nothing happens unless
   the hardware reports as many queues as the port has.
   */
  method QueueAssociate(sw: QosSwitch, port: nat, report: seq<HwQueue>)
    modifies sw`queues
    ensures QueuesBound(old(sw.queues), sw.queues, port, report,
            if |report| == |PortKeys(old(sw.queues).Keys, port)| then |report| else 0)
    ensures Binds(old(TreeOf(sw)), TreeOf(sw), port, sw.leafLevel)
  {
    ghost var before := sw.queues;
    var count, none := sw.GetPortQueueIds(port, 0);
    if |report| == 0 || count != |report| {
      return;
    }
    var i := 0;
    while i < |report|
      invariant 0 <= i <= |report| && QueuesBound(before, sw.queues, port, report, i)
    {
      var hw := report[i];
      // searching the port's queues by type and number is a lookup: the key is made of these
      var key := Key(port, hw.index, hw.kind);
      ghost var mid := sw.queues;
      if key in sw.queues {
        sw.queues := sw.queues[key := BoundTo(sw.queues[key], Some(hw))];
      }
      BindOneQueue(before, mid, sw.queues, port, report, i);
      i := i + 1;
    }
    QueuesBoundBinds(before, sw.queues, port, report, |report|);
  }

  lemma QueuesBoundBinds(before: QueueTable, after: QueueTable, port: nat, report: seq<HwQueue>, n: nat)
    requires n <= |report| && QueuesBound(before, after, port, report, n)
    ensures forall k :: k in before ==> after[k] == before[k] || (k.port == port && BoundQueue(before[k], after[k]))
  {}

  /** The group the hardware group is bound to: one of the port, of this level and index by its id. */
  predicate IsMatch(sgs: SgTable, port: nat, leaf: nat, s: NasId, low: nat) {
    s in sgs && sgs[s].port == port && sgs[s].level == leaf && SgLevel(s) == leaf && SgIndex(s) == low
  }

  function GroupBoundTo(row: SchedGroup, hw: HwSg): SchedGroup {
    row.(ndi := hw.ndi, created := true, maxChild := hw.maxChild)
  }

  /** One hardware group: bound to a match of its lowest child index, if there is one. */
  ghost predicate IsBindStep(queues: QueueTable, port: nat, leaf: nat, hw: HwSg, before: SgTable, after: SgTable) {
    if !hw.readable || hw.level != leaf then after == before
    else
      exists low :: IsLowest(queues, before, hw.children, low) &&
        if exists s :: IsMatch(before, port, leaf, s, low)
        then exists s :: IsMatch(before, port, leaf, s, low) && after == before[s := GroupBoundTo(before[s], hw)]
        else after == before
  }

  /** Hardware ids of the report: not null, and not of a backed group or of another in the report. */
  ghost predicate NewHwIds(sgs: SgTable, report: seq<HwSg>, from: nat) {
    && (forall i :: from <= i < |report| ==> report[i].ndi != NDI_NULL && NDI_NULL !in report[i].children)
    && (forall i, j :: from <= i < j < |report| ==> report[i].ndi != report[j].ndi)
    && (forall i, s :: from <= i < |report| && s in sgs && sgs[s].created ==> report[i].ndi != sgs[s].ndi)
  }

  lemma BindKeepsNew(queues: QueueTable, before: SgTable, s: NasId, report: seq<HwSg>, i: nat)
    requires i < |report| && s in before && HwIdsDistinct(queues, before) && NewHwIds(before, report, i)
    ensures var after := before[s := GroupBoundTo(before[s], report[i])];
            HwIdsDistinct(queues, after) && NewHwIds(after, report, i + 1)
  {}

  lemma BoundStep(queues: QueueTable, port: nat, leaf: nat, hw: HwSg, sgs: SgTable, low: nat, s: NasId)
    requires hw.readable && hw.level == leaf && IsLowest(queues, sgs, hw.children, low)
    requires IsMatch(sgs, port, leaf, s, low)
    ensures IsBindStep(queues, port, leaf, hw, sgs, sgs[s := GroupBoundTo(sgs[s], hw)])
  {}

  lemma UnmatchedStep(queues: QueueTable, port: nat, leaf: nat, hw: HwSg, sgs: SgTable, low: nat)
    requires hw.readable && hw.level == leaf && IsLowest(queues, sgs, hw.children, low)
    requires forall s :: s in sgs ==> !IsMatch(sgs, port, leaf, s, low)
    ensures IsBindStep(queues, port, leaf, hw, sgs, sgs)
  {}

  lemma OneGroupBinds(t: Tree, port: nat, leaf: nat, s: NasId, hw: HwSg)
    requires s in t.sgs && t.sgs[s].port == port && t.sgs[s].level == leaf && SgLevel(s) == leaf
    ensures Binds(t, t.(sgs := t.sgs[s := GroupBoundTo(t.sgs[s], hw)]), port, leaf)
  {}

  /** The tables before and after each of the first i reported groups. */
  ghost predicate IsBinding(queues: QueueTable, port: nat, leaf: nat, report: seq<HwSg>, tables: seq<SgTable>, i: nat) {
    && i <= |report| && |tables| == i + 1
    && forall j {:trigger report[j]} :: 0 <= j < i ==>
         IsBindStep(queues, port, leaf, report[j], tables[j], tables[j + 1])
  }

  lemma BindingGrows(queues: QueueTable, port: nat, leaf: nat, report: seq<HwSg>, tables: seq<SgTable>, i: nat,
                     after: SgTable)
    requires IsBinding(queues, port, leaf, report, tables, i) && i < |report|
    requires IsBindStep(queues, port, leaf, report[i], tables[i], after)
    ensures IsBinding(queues, port, leaf, report, tables + [after], i + 1)
  {
    var more := tables + [after];
    forall j | 0 <= j < i + 1 ensures IsBindStep(queues, port, leaf, report[j], more[j], more[j + 1]) {
      if j < i {
        assert more[j] == tables[j] && more[j + 1] == tables[j + 1];
      }
    }
  }

  /**
   nas_qos_port_scheduler_group_association, up to the stored configuration it then replays: the groups
   right above the queues are bound, one reported group after the other.
   */
  method SgAssociate(sw: QosSwitch, port: nat, report: seq<HwSg>) returns (ghost tables: seq<SgTable>)
    requires HwIdsDistinct(sw.queues, sw.sgs) && NewHwIds(sw.sgs, report, 0)
    modifies sw`sgs
    ensures IsBinding(sw.queues, port, sw.leafLevel, report, tables, |report|)
    ensures tables[0] == old(sw.sgs) && tables[|report|] == sw.sgs
    ensures Binds(old(TreeOf(sw)), TreeOf(sw), port, sw.leafLevel) && HwIdsDistinct(sw.queues, sw.sgs)
  {
    ghost var start := TreeOf(sw);
    tables := [sw.sgs];
    var i := 0;
    while i < |report|
      invariant 0 <= i <= |report| && IsBinding(sw.queues, port, sw.leafLevel, report, tables, i)
      invariant tables[0] == start.sgs && tables[i] == sw.sgs && Binds(start, TreeOf(sw), port, sw.leafLevel)
      invariant HwIdsDistinct(sw.queues, sw.sgs) && NewHwIds(sw.sgs, report, i)
    {
      ghost var mid := TreeOf(sw);
      BindGroup(sw, port, report, i);
      BindsTransitive(start, mid, TreeOf(sw), port, sw.leafLevel);
      BindingGrows(sw.queues, port, sw.leafLevel, report, tables, i, sw.sgs);
      tables := tables + [sw.sgs];
      i := i + 1;
    }
  }

  /** One turn of the loop above. */
  method BindGroup(sw: QosSwitch, port: nat, report: seq<HwSg>, i: nat)
    requires i < |report| && HwIdsDistinct(sw.queues, sw.sgs) && NewHwIds(sw.sgs, report, i)
    modifies sw`sgs
    ensures IsBindStep(sw.queues, port, sw.leafLevel, report[i], old(sw.sgs), sw.sgs)
    ensures Binds(old(TreeOf(sw)), TreeOf(sw), port, sw.leafLevel)
    ensures HwIdsDistinct(sw.queues, sw.sgs) && NewHwIds(sw.sgs, report, i + 1)
  {
    var hw := report[i];
    if !hw.readable || hw.level != sw.leafLevel {
      return;
    }
    var low := LowestChildIndex(sw, hw.children);
    var found := FindMatch(sw, port, low);
    if found.None? {
      UnmatchedStep(sw.queues, port, sw.leafLevel, hw, sw.sgs, low);
      return;
    }
    var s := found.value;
    BoundStep(sw.queues, port, sw.leafLevel, hw, sw.sgs, low, s);
    OneGroupBinds(TreeOf(sw), port, sw.leafLevel, s, hw);
    BindKeepsNew(sw.queues, sw.sgs, s, report, i);
    sw.sgs := sw.sgs[s := GroupBoundTo(sw.sgs[s], hw)];
  }

  /** The search of the port's leaf-level groups, in the order the table is walked. */
  method FindMatch(sw: QosSwitch, port: nat, low: nat) returns (r: Option<NasId>)
    ensures match r
            case Some(s) => IsMatch(sw.sgs, port, sw.leafLevel, s, low)
            case None => forall s :: s in sw.sgs ==> !IsMatch(sw.sgs, port, sw.leafLevel, s, low)
  {
    var todo := sw.sgs.Keys;
    while todo != {}
      invariant todo <= sw.sgs.Keys
      invariant forall s :: s in sw.sgs && s !in todo ==> !IsMatch(sw.sgs, port, sw.leafLevel, s, low)
    {
      var s :| s in todo;
      if IsMatch(sw.sgs, port, sw.leafLevel, s, low) {
        return Some(s);
      }
      todo := todo - {s};
    }
    r := None;
  }
}
