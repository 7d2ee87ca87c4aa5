/**
 The HQoS tree of queues and scheduler groups, as values: what each CPS operation does to the two
 tables and their generators, and the invariant that parents and child lists are exact inverses.
 The imperative operations are in HqosOperations.
 */
module HqosForest {
  import opened Wrappers
  import opened NasIds
  import opened IdGenerator
  import opened OrderedKeys
  import opened QosRows
  import opened QosSwitches

  datatype Tree = Tree(queues: map<Key, Queue>, sgs: map<NasId, SchedGroup>, queueIds: set<nat>, sgIds: set<nat>)

  // ---- Child lists ----

  ghost predicate NoDup(s: seq<NasId>) {
    forall i, j :: 0 <= i < j < |s| ==> s[i] != s[j]
  }

  lemma AppendNoDup(list: seq<NasId>, c: NasId)
    ensures NoDup(list + [c]) <==> NoDup(list) && c !in list
  {
    var all := list + [c];
    assert all[|list|] == c;
    if NoDup(all) {
      assert forall i :: 0 <= i < |list| ==> all[i] == list[i];
      assert forall i :: 0 <= i < |list| ==> all[i] != all[|list|];
    }
  }

  /** nas_qos_scheduler_group::del_child on the list: every occurrence goes. */
  function Without(list: seq<NasId>, c: NasId): seq<NasId> {
    if list == [] then []
    else
      var rest := Without(list[..|list| - 1], c);
      if list[|list| - 1] == c then rest else rest + [list[|list| - 1]]
  }

  lemma {:induction false} WithoutFacts(list: seq<NasId>, c: NasId)
    ensures forall x :: x in Without(list, c) <==> x in list && x != c
    ensures NoDup(list) ==> NoDup(Without(list, c))
    ensures c !in list ==> Without(list, c) == list
  {
    if list != [] {
      var front, last := list[..|list| - 1], list[|list| - 1];
      assert list == front + [last];
      WithoutFacts(front, c);
      AppendNoDup(front, last);
      AppendNoDup(Without(front, c), last);
    }
  }

  /** nas_qos_notify_parent_child_change with add false: nothing happens when the parent is unknown. */
  function DelChild(sgs: map<NasId, SchedGroup>, p: NasId, c: NasId): map<NasId, SchedGroup> {
    if p in sgs then sgs[p := sgs[p].(children := Without(sgs[p].children, c))] else sgs
  }

  /** The same with add true. */
  function AddChild(sgs: map<NasId, SchedGroup>, p: NasId, c: NasId): map<NasId, SchedGroup> {
    if p in sgs then sgs[p := sgs[p].(children := sgs[p].children + [c])] else sgs
  }

  /** nas2ndi_scheduler_group_id throws on an id that is neither null nor in the table. */
  predicate Resolves(sgs: map<NasId, SchedGroup>, p: NasId) {
    p == 0 || p in sgs
  }

  // ---- The operations ----

  /** What a scheduler-group request carries; absent attributes are None. */
  datatype SgRequest = SgRequest(port: Option<nat>, level: Option<nat>, profile: Option<NasId>,
                                 maxChild: Option<nat>, parent: Option<NasId>)

  /**
   Everything an operation learns from outside: whether the hardware push is accepted, the hardware
   id it returns, the generator's choice, whether the interface is known, and which attributes were
   still marked dirty on the stored row.
   */
  datatype Outside = Outside(accepts: bool, ndi: NdiId, choice: nat, portKnown: bool,
                             staleParent: bool, staleProfile: bool, staleMaxChild: bool)

  function Given<T>(o: Option<T>, default: T): T {
    match o case Some(v) => v case None => default
  }

  function CreateQueue(t: Tree, key: Key, parent: Option<NasId>, o: Outside): Tree {
    match Allocate(t.queueIds, QUEUE_ID_MAX, o.choice)
    case None => t
    case Some(raw) =>
      if parent.None? || !o.portKnown || !o.accepts || !Resolves(t.sgs, parent.value) || key in t.queues then t
      else
        var id := QueueIdOf(raw);
        Tree(t.queues[key := Queue(id, parent.value, o.ndi, true, [])],
             AddChild(t.sgs, parent.value, id), t.queueIds + {raw}, t.sgIds)
  }

  function SetQueue(t: Tree, virt: set<nat>, key: Key, parent: Option<NasId>, o: Outside): Tree {
    if key !in t.queues then t
    else
      var prior := t.queues[key];
      var next := prior.(parent := Given(parent, prior.parent));
      if key.port in virt || !prior.created then t.(queues := t.queues[key := next])
      else
        var dirty := parent.Some? || o.staleParent;
        if !o.accepts || (dirty && !Resolves(t.sgs, next.parent)) then t
        else
          t.(sgs := if dirty then AddChild(DelChild(t.sgs, prior.parent, prior.id), next.parent, prior.id) else t.sgs,
             queues := t.queues[key := next])
  }

  function DeleteQueue(t: Tree, key: Key, o: Outside): Tree {
    if key !in t.queues || !o.accepts then t
    else
      var prior := t.queues[key];
      Tree(t.queues - {key}, DelChild(t.sgs, prior.parent, prior.id), t.queueIds - {QueueRawOf(prior.id)}, t.sgIds)
  }

  predicate Complete(r: SgRequest) {
    r.port.Some? && r.level.Some? && r.profile.Some? && r.maxChild.Some? && r.parent.Some?
  }

  function CreateSg(t: Tree, r: SgRequest, o: Outside): Tree {
    match Allocate(t.sgIds, SG_ID_MAX, o.choice)
    case None => t
    case Some(raw) =>
      var id := SgIdOf(raw);
      if !Complete(r) || !o.portKnown || !o.accepts || !Resolves(t.sgs, r.parent.value) || id in t.sgs then t
      else
        var row := SchedGroup(r.port.value, r.level.value, r.profile.value, r.maxChild.value,
                              r.parent.value, [], o.ndi, true);
        Tree(t.queues, AddChild(t.sgs[id := row], r.parent.value, id), t.queueIds, t.sgIds + {raw})
  }

  /** The local copy after parsing; its child list is the one the stored row had before. */
  function Parsed(prior: SchedGroup, r: SgRequest): SchedGroup {
    prior.(port := Given(r.port, prior.port), level := Given(r.level, prior.level),
         profile := Given(r.profile, prior.profile), maxChild := Given(r.maxChild, prior.maxChild),
         parent := Given(r.parent, prior.parent))
  }

  /** The checks a SET request must pass before anything is pushed. */
  predicate SetAllowed(prior: SchedGroup, r: SgRequest, o: Outside) {
    && (r.port.Some? ==> o.portKnown)
    && !(Parsed(prior, r).level == 0 && (r.profile.Some? || o.staleProfile))
    && !(r.maxChild.Some? || o.staleMaxChild)
  }

  function SetSg(t: Tree, virt: set<nat>, id: NasId, r: SgRequest, o: Outside): Tree {
    if id !in t.sgs || !SetAllowed(t.sgs[id], r, o) then t
    else
      var prior := t.sgs[id];
      var next := Parsed(prior, r);
      if next.port in virt || !prior.created then t.(sgs := t.sgs[id := next])
      else
        var dirty := r.parent.Some? || o.staleParent;
        if !o.accepts || (dirty && !Resolves(t.sgs, next.parent)) then t
        else
          var linked := if dirty then AddChild(DelChild(t.sgs, prior.parent, id), next.parent, id) else t.sgs;
          t.(sgs := linked[id := next])
  }

  function DeleteSg(t: Tree, id: NasId, o: Outside): Tree {
    if id !in t.sgs || |t.sgs[id].children| > 0 || !o.accepts then t
    else
      t.(sgs := DelChild(t.sgs, t.sgs[id].parent, id) - {id},
         sgIds := if IsAutoFormed(id) then t.sgIds else t.sgIds - {SgRawOf(id)})
  }

  ghost function DeletePort(t: Tree, port: nat): Tree {
    Tree(t.queues - PortKeys(t.queues.Keys, port), t.sgs - SgsOfPort(t.sgs, port),
         t.queueIds - QueueIdsOfPort(t.queues, port), t.sgIds - SgIdsOfPort(t.sgs, port))
  }

  // ---- The invariant ----

  ghost predicate QueueChild(t: Tree, c: NasId, p: NasId) {
    exists k :: k in t.queues && t.queues[k].id == c && t.queues[k].created && t.queues[k].parent == p
  }

  ghost predicate SgChild(t: Tree, c: NasId, p: NasId) {
    c in t.sgs && t.sgs[c].created && t.sgs[c].parent == p
  }

  /** c is a hardware-backed queue or scheduler group whose parent field names p. */
  ghost predicate Child(t: Tree, c: NasId, p: NasId) {
    QueueChild(t, c, p) || SgChild(t, c, p)
  }

  /** The child list of p holds exactly the nodes that name p, once each. */
  ghost predicate ListOk(t: Tree, p: NasId)
    requires p in t.sgs
  {
    NoDup(t.sgs[p].children) && forall c :: c in t.sgs[p].children <==> Child(t, c, p)
  }

  ghost predicate ListsMatch(t: Tree) {
    forall p :: p in t.sgs ==> ListOk(t, p)
  }

  /** Every parent named by a hardware-backed node exists, and is not the node itself. */
  ghost predicate ParentsExist(t: Tree) {
    && (forall k :: k in t.queues && t.queues[k].created ==> Resolves(t.sgs, t.queues[k].parent))
    && (forall s :: s in t.sgs && t.sgs[s].created ==> Resolves(t.sgs, t.sgs[s].parent) && t.sgs[s].parent != s)
  }

  ghost predicate IdsDistinct(t: Tree) {
    && 0 !in t.sgs
    && (forall k :: k in t.queues ==> t.queues[k].id !in t.sgs)
    && (forall k, k' :: k in t.queues && k' in t.queues && t.queues[k].id == t.queues[k'].id ==> k == k')
  }

  ghost predicate Links(t: Tree) {
    ParentsExist(t) && ListsMatch(t) && IdsDistinct(t)
  }

  /** Hardware-backed nodes sit on real ports. */
  ghost predicate OnRealPorts(t: Tree, virt: set<nat>) {
    && (forall k :: k in t.queues && t.queues[k].created ==> k.port !in virt)
    && (forall s :: s in t.sgs && t.sgs[s].created ==> t.sgs[s].port !in virt)
  }

  ghost predicate WellLinked(t: Tree, virt: set<nat>) {
    match t
    case Tree(queues, sgs, queueIds, sgIds) =>
      Links(t) && OnRealPorts(t, virt) && QueueIdsOk(queues, queueIds) && SgIdsOk(sgs, sgIds)
  }

  // ---- Each operation keeps the links ----

  /** How an operation on node `id` may change who is a child of whom. */
  ghost predicate ChildrenMove(t: Tree, t': Tree, id: NasId, to: Option<NasId>) {
    forall c: NasId, q: NasId :: Child(t', c, q) <==> if c == id then to == Some(q) else Child(t, c, q)
  }

  /** One list edited by taking `id` out and possibly putting it at the end matches the new children. */
  lemma ListRelinked(t: Tree, t': Tree, id: NasId, to: Option<NasId>, p: NasId)
    requires p in t.sgs && p in t'.sgs && ListOk(t, p) && ChildrenMove(t, t', id, to)
    requires t'.sgs[p].children == Without(t.sgs[p].children, id) + (if to == Some(p) then [id] else [])
    ensures ListOk(t', p)
  {
    var l, l' := t.sgs[p].children, t'.sgs[p].children;
    WithoutFacts(l, id);
    AppendNoDup(Without(l, id), id);
    assert to != Some(p) ==> l' == Without(l, id);
    forall c ensures c in l' <==> Child(t', c, p) {
      assert c in l <==> Child(t, c, p);
      assert c in l' <==> (c in l && c != id) || (c == id && to == Some(p));
    }
  }

  /** A list that does not hold `id` is not changed by taking `id` out. */
  lemma NotInList(t: Tree, id: NasId, p: NasId)
    requires p in t.sgs && ListOk(t, p) && !Child(t, id, p)
    ensures Without(t.sgs[p].children, id) == t.sgs[p].children
  {
    WithoutFacts(t.sgs[p].children, id);
  }

  lemma CreateQueueLinks(t: Tree, key: Key, row: Queue, t': Tree)
    requires Links(t) && row.created && Resolves(t.sgs, row.parent) && key !in t.queues
    requires row.id !in t.sgs && forall k :: k in t.queues ==> t.queues[k].id != row.id
    requires t'.queues == t.queues[key := row] && t'.sgs == AddChild(t.sgs, row.parent, row.id)
    ensures Links(t')
  {
    var id, p := row.id, row.parent;
    forall c, q ensures Child(t', c, q) <==> if c == id then Some(p) == Some(q) else Child(t, c, q) {
      assert t'.queues[key].id == id;
      if QueueChild(t, c, q) {
        var k :| k in t.queues && t.queues[k].id == c && t.queues[k].created && t.queues[k].parent == q;
        assert t'.queues[k] == t.queues[k];
      }
    }
    forall q | q in t'.sgs ensures ListOk(t', q) {
      NotInList(t, id, q);
      ListRelinked(t, t', id, Some(p), q);
    }
  }

  lemma MovedQueue(t: Tree, key: Key, p: NasId, t': Tree)
    requires IdsDistinct(t) && key in t.queues && t.queues[key].created
    requires t'.queues == t.queues[key := t.queues[key].(parent := p)] && t'.sgs.Keys == t.sgs.Keys
    requires forall s :: s in t.sgs ==> t'.sgs[s].created == t.sgs[s].created && t'.sgs[s].parent == t.sgs[s].parent
    ensures ChildrenMove(t, t', t.queues[key].id, Some(p))
  {
    var id := t.queues[key].id;
    forall c, q ensures Child(t', c, q) <==> if c == id then Some(p) == Some(q) else Child(t, c, q) {
      assert t'.queues[key].id == id;
      if QueueChild(t, c, q) {
        var k :| k in t.queues && t.queues[k].id == c && t.queues[k].created && t.queues[k].parent == q;
        assert k != key ==> t'.queues[k] == t.queues[k];
      }
      if QueueChild(t', c, q) {
        var k :| k in t'.queues && t'.queues[k].id == c && t'.queues[k].created && t'.queues[k].parent == q;
        assert k != key ==> t'.queues[k] == t.queues[k];
      }
    }
  }

  lemma SetQueueLinks(t: Tree, key: Key, p: NasId, t': Tree)
    requires Links(t) && key in t.queues && t.queues[key].created && Resolves(t.sgs, p)
    requires var prior := t.queues[key];
             && t'.queues == t.queues[key := prior.(parent := p)]
             && t'.sgs == AddChild(DelChild(t.sgs, prior.parent, prior.id), p, prior.id)
    ensures Links(t')
  {
    var prior := t.queues[key];
    MovedQueue(t, key, p, t');
    assert t.queues == t.queues[key := prior.(parent := prior.parent)];
    MovedQueue(t, key, prior.parent, t);
    forall q | q in t'.sgs ensures ListOk(t', q) {
      if q != prior.parent {
        NotInList(t, prior.id, q);
      }
      ListRelinked(t, t', prior.id, Some(p), q);
    }
  }

  lemma DeleteQueueLinks(t: Tree, key: Key, t': Tree)
    requires Links(t) && key in t.queues
    requires t'.queues == t.queues - {key} && t'.sgs == DelChild(t.sgs, t.queues[key].parent, t.queues[key].id)
    ensures Links(t')
  {
    var prior := t.queues[key];
    forall c, q ensures Child(t', c, q) <==> if c == prior.id then None == Some(q) else Child(t, c, q) {
      if QueueChild(t, c, q) && c != prior.id {
        var k :| k in t.queues && t.queues[k].id == c && t.queues[k].created && t.queues[k].parent == q;
        assert t'.queues[k] == t.queues[k];
      }
    }
    forall q | q in t'.sgs ensures ListOk(t', q) {
      if q != prior.parent {
        NotInList(t, prior.id, q);
      }
      ListRelinked(t, t', prior.id, None, q);
    }
  }

  lemma CreateSgLinks(t: Tree, id: NasId, row: SchedGroup, t': Tree)
    requires Links(t) && Resolves(t.sgs, row.parent) && row.created && row.children == []
    requires id != 0 && id !in t.sgs && forall k :: k in t.queues ==> t.queues[k].id != id
    requires t'.queues == t.queues && t'.sgs == AddChild(t.sgs[id := row], row.parent, id)
    ensures Links(t')
  {
    forall c, q ensures QueueChild(t', c, q) <==> QueueChild(t, c, q) {}
    forall q | q in t.sgs ensures ListOk(t', q) {
      NotInList(t, id, q);
      ListRelinked(t, t', id, Some(row.parent), q);
    }
    forall c ensures !Child(t', c, id) {
      if QueueChild(t, c, id) {
        assert false;
      }
    }
  }

  lemma MovedSg(t: Tree, id: NasId, p: NasId, t': Tree)
    requires IdsDistinct(t) && id in t.sgs && t.sgs[id].created
    requires t'.queues == t.queues && t'.sgs.Keys == t.sgs.Keys
    requires t'.sgs[id].created && t'.sgs[id].parent == p
    requires forall s :: s in t.sgs && s != id ==>
               t'.sgs[s].created == t.sgs[s].created && t'.sgs[s].parent == t.sgs[s].parent
    ensures ChildrenMove(t, t', id, Some(p))
  {}

  /**
   A pushed SET of a scheduler group keeps the links when the group does not end up as its own
   parent. If it does, the group is a child of itself but not in its own list: writing the local copy
   back has lost the edit.
   */
  lemma SetSgLinks(t: Tree, id: NasId, next: SchedGroup, t': Tree)
    requires Links(t) && id in t.sgs && t.sgs[id].created && Resolves(t.sgs, next.parent)
    requires next.created && next.children == t.sgs[id].children
    requires t'.queues == t.queues
    requires t'.sgs == AddChild(DelChild(t.sgs, t.sgs[id].parent, id), next.parent, id)[id := next]
    ensures next.parent != id ==> Links(t')
    ensures next.parent == id ==> !ListsMatch(t')
  {
    var prior := t.sgs[id];
    if next.parent != id {
      MovedSg(t, id, next.parent, t');
      MovedSg(t, id, prior.parent, t);
      forall q | q in t'.sgs ensures ListOk(t', q) {
        if q != prior.parent {
          NotInList(t, id, q);
        }
        ListRelinked(t, t', id, Some(next.parent), q);
      }
    } else {
      assert ListOk(t, id) && !Child(t, id, id);
      assert SgChild(t', id, id);
    }
  }

  lemma DeleteSgLinks(t: Tree, id: NasId, t': Tree)
    requires Links(t) && id in t.sgs && t.sgs[id].children == []
    requires t'.queues == t.queues && t'.sgs == DelChild(t.sgs, t.sgs[id].parent, id) - {id}
    ensures Links(t')
  {
    var prior := t.sgs[id];
    assert ListOk(t, id);
    forall c ensures !Child(t, c, id) {
      assert c !in t.sgs[id].children;
    }
    forall k | k in t.queues && t.queues[k].created ensures t.queues[k].parent != id {
      assert !Child(t, t.queues[k].id, id);
    }
    forall s | s in t.sgs && t.sgs[s].created ensures t.sgs[s].parent != id {
      assert !Child(t, s, id);
    }
    forall c, q ensures QueueChild(t', c, q) <==> QueueChild(t, c, q) {}
    forall q | q in t'.sgs ensures ListOk(t', q) {
      if q != prior.parent {
        NotInList(t, id, q);
      }
      ListRelinked(t, t', id, None, q);
    }
  }
}
