/**
 Each CPS operation and the port deletion keep the tree well linked; for a scheduler-group SET and a
 port deletion, the exact conditions under which they do; and what rollback restores.
 */
module HqosSteps {
  import opened Wrappers
  import opened NasIds
  import opened IdGenerator
  import opened OrderedKeys
  import opened QosRows
  import opened QosSwitches
  import opened HqosForest

  // ---- Fresh ids ----

  lemma FreshQueueId(t: Tree, raw: nat)
    requires QueueIdsOk(t.queues, t.queueIds) && SgIdsOk(t.sgs, t.sgIds)
    requires IsFree(t.queueIds, QUEUE_ID_MAX, raw)
    ensures QueueIdOf(raw) !in t.sgs && forall k :: k in t.queues ==> t.queues[k].id != QueueIdOf(raw)
    ensures QueueRawOf(QueueIdOf(raw)) == raw
  {
    ReleaseInvertsAlloc(raw);
    if QueueIdOf(raw) in t.sgs {
      SgIdIsNoQueueId(t, QueueIdOf(raw));
      GeneratedIdTags(raw);
      assert false;
    }
  }

  lemma SgIdIsNoQueueId(t: Tree, s: NasId)
    requires SgIdsOk(t.sgs, t.sgIds) && s in t.sgs
    ensures !IsQueueId(s)
  {
    if Formed(s) {
      FieldBounds(s);
      FormedIdTags(SgPort(s), SgLevel(s), SgIndex(s));
    } else {
      GeneratedIdTags(SgRawOf(s));
    }
  }

  lemma FreshSgId(t: Tree, raw: nat)
    requires QueueIdsOk(t.queues, t.queueIds) && SgIdsOk(t.sgs, t.sgIds)
    requires IsFree(t.sgIds, SG_ID_MAX, raw)
    ensures SgIdOf(raw) != 0 && SgIdOf(raw) !in t.sgs && SgRawOf(SgIdOf(raw)) == raw
    ensures forall k :: k in t.queues ==> t.queues[k].id != SgIdOf(raw)
  {
    var id := SgIdOf(raw);
    ReleaseInvertsAlloc(raw);
    GeneratedIdValues(raw);
    GeneratedIdTags(raw);
    if id in t.sgs && Formed(id) {
      FieldBounds(id);
      FormedIdTags(SgPort(id), SgLevel(id), SgIndex(id));
      assert false;
    }
    forall k | k in t.queues ensures t.queues[k].id != id {
      GeneratedIdTags(QueueRawOf(t.queues[k].id));
    }
  }

  // ---- Each operation keeps the whole invariant ----

  lemma CreateQueueKeeps(t: Tree, virt: set<nat>, key: Key, parent: Option<NasId>, o: Outside)
    requires WellLinked(t, virt) && key.port !in virt
    ensures WellLinked(CreateQueue(t, key, parent, o), virt)
  {
    var t' := CreateQueue(t, key, parent, o);
    if t' != t {
      FreshQueueId(t, o.choice);
      CreateQueueLinks(t, key, Queue(QueueIdOf(o.choice), parent.value, o.ndi, true, []), t');
    }
  }

  lemma SetQueueKeeps(t: Tree, virt: set<nat>, key: Key, parent: Option<NasId>, o: Outside)
    requires WellLinked(t, virt)
    ensures WellLinked(SetQueue(t, virt, key, parent, o), virt)
  {
    SetQueueKeepsLinks(t, virt, key, parent, o);
    SetQueueShape(t, virt, key, parent, o);
    SameIdsOk(t, SetQueue(t, virt, key, parent, o));
  }

  /** A queue SET rewrites one queue's parent and nothing but child lists beside it. */
  lemma SetQueueShape(t: Tree, virt: set<nat>, key: Key, parent: Option<NasId>, o: Outside)
    ensures var t' := SetQueue(t, virt, key, parent, o);
            && t'.queueIds == t.queueIds && t'.sgIds == t.sgIds
            && t'.queues.Keys == t.queues.Keys
            && (forall k :: k in t.queues ==> t'.queues[k].(parent := t.queues[k].parent) == t.queues[k])
            && t'.sgs.Keys == t.sgs.Keys
            && (forall s :: s in t.sgs ==> t'.sgs[s].(children := t.sgs[s].children) == t.sgs[s])
  {
    if key in t.queues {
      var prior := t.queues[key];
      RelinkShape(t.sgs, prior.parent, Given(parent, prior.parent), prior.id);
    }
  }

  lemma RelinkShape(sgs: map<NasId, SchedGroup>, from: NasId, to: NasId, c: NasId)
    ensures var r := AddChild(DelChild(sgs, from, c), to, c);
            && r.Keys == sgs.Keys
            && forall s :: s in sgs ==> r[s].(children := sgs[s].children) == sgs[s]
  {}

  lemma SameIdsOk(t: Tree, t': Tree)
    requires QueueIdsOk(t.queues, t.queueIds) && SgIdsOk(t.sgs, t.sgIds)
    requires t'.queueIds == t.queueIds && t'.sgIds == t.sgIds
    requires t'.queues.Keys == t.queues.Keys && t'.sgs.Keys == t.sgs.Keys
    requires forall k :: k in t.queues ==> t'.queues[k].id == t.queues[k].id
    ensures QueueIdsOk(t'.queues, t'.queueIds) && SgIdsOk(t'.sgs, t'.sgIds)
  {}

  lemma SetQueueKeepsLinks(t: Tree, virt: set<nat>, key: Key, parent: Option<NasId>, o: Outside)
    requires Links(t) && OnRealPorts(t, virt)
    ensures Links(SetQueue(t, virt, key, parent, o)) && OnRealPorts(SetQueue(t, virt, key, parent, o), virt)
  {
    var t' := SetQueue(t, virt, key, parent, o);
    if key in t.queues && t' != t {
      var p := Given(parent, t.queues[key].parent);
      if !t.queues[key].created {
        UnbackedQueueLinks(t, key, p, t');
      } else if parent.Some? || o.staleParent {
        SetQueueLinks(t, key, p, t');
      }
    }
  }

  /** Rewriting a row that is not hardware-backed touches no link. */
  lemma UnbackedQueueLinks(t: Tree, key: Key, p: NasId, t': Tree)
    requires Links(t) && key in t.queues && !t.queues[key].created
    requires t' == t.(queues := t.queues[key := t.queues[key].(parent := p)])
    ensures Links(t')
  {
    forall c, q ensures Child(t', c, q) <==> Child(t, c, q) {
      if QueueChild(t, c, q) {
        var k :| k in t.queues && t.queues[k].id == c && t.queues[k].created && t.queues[k].parent == q;
        assert t'.queues[k] == t.queues[k];
      }
      if QueueChild(t', c, q) {
        var k :| k in t'.queues && t'.queues[k].id == c && t'.queues[k].created && t'.queues[k].parent == q;
        assert t'.queues[k] == t.queues[k];
      }
    }
    forall q | q in t'.sgs ensures ListOk(t', q) {
      assert ListOk(t, q);
    }
  }

  lemma DeleteQueueKeeps(t: Tree, virt: set<nat>, key: Key, o: Outside)
    requires WellLinked(t, virt)
    ensures WellLinked(DeleteQueue(t, key, o), virt)
  {
    var t' := DeleteQueue(t, key, o);
    if key in t.queues && o.accepts {
      DeleteQueueLinks(t, key, t');
      forall k | k in t'.queues ensures QueueRawOf(t.queues[k].id) != QueueRawOf(t.queues[key].id) {}
    }
  }

  lemma CreateSgKeeps(t: Tree, virt: set<nat>, r: SgRequest, o: Outside)
    requires WellLinked(t, virt) && (r.port.Some? ==> r.port.value !in virt)
    ensures WellLinked(CreateSg(t, r, o), virt)
  {
    var t' := CreateSg(t, r, o);
    if t' != t {
      FreshSgId(t, o.choice);
      var id := SgIdOf(o.choice);
      var row := SchedGroup(r.port.value, r.level.value, r.profile.value, r.maxChild.value,
                            r.parent.value, [], o.ndi, true);
      CreateSgLinks(t, id, row, t');
      RelinkShape(t.sgs[id := row], 0, r.parent.value, id);
      AddedSgIdsOk(t.sgs, t.sgIds, o.choice, t'.sgs);
      AddedOnRealPort(t, virt, id, row, t');
    }
  }

  lemma AddedSgIdsOk(sgs: map<NasId, SchedGroup>, ids: set<nat>, raw: nat, sgs': map<NasId, SchedGroup>)
    requires SgIdsOk(sgs, ids) && raw <= SG_ID_MAX && SgRawOf(SgIdOf(raw)) == raw
    requires sgs'.Keys == sgs.Keys + {SgIdOf(raw)}
    ensures SgIdsOk(sgs', ids + {raw})
  {}

  lemma AddedOnRealPort(t: Tree, virt: set<nat>, id: NasId, row: SchedGroup, t': Tree)
    requires OnRealPorts(t, virt) && id !in t.sgs && row.port !in virt
    requires t'.queues == t.queues && t'.sgs == AddChild(t.sgs[id := row], row.parent, id)
    ensures OnRealPorts(t', virt)
  {}

  // ---- What a scheduler-group SET can break ----

  /** The request passes every check and the stored row is overwritten. */
  predicate SetStored(t: Tree, virt: set<nat>, id: NasId, r: SgRequest, o: Outside) {
    && id in t.sgs && SetAllowed(t.sgs[id], r, o)
    && var next := Parsed(t.sgs[id], r);
    (next.port in virt || !t.sgs[id].created
     || (o.accepts && (r.parent.Some? || o.staleParent ==> Resolves(t.sgs, next.parent))))
  }

  /**
   The stored SET of a hardware-backed group leaves the child lists wrong: on a virtual port no list
   is edited, so any change of parent between listed groups shows; elsewhere the edit is lost only
   when the group becomes its own parent.
   */
  predicate SetBreaksLists(t: Tree, virt: set<nat>, id: NasId, r: SgRequest, o: Outside) {
    && SetStored(t, virt, id, r, o) && t.sgs[id].created
    && var prior, next := t.sgs[id], Parsed(t.sgs[id], r);
    if next.port in virt then next.parent != prior.parent && (next.parent in t.sgs || prior.parent in t.sgs)
    else next.parent == id
  }

  /** The stored SET of a hardware-backed group moves it to a virtual port or makes it its own parent. */
  predicate SetBreaksLinks(t: Tree, virt: set<nat>, id: NasId, r: SgRequest, o: Outside) {
    && SetStored(t, virt, id, r, o) && t.sgs[id].created
    && (Parsed(t.sgs[id], r).port in virt || Parsed(t.sgs[id], r).parent == id)
  }

  /** Exactly when the child lists still hold the nodes naming their owner after a SET, for every request. */
  lemma SetSgListsExact(t: Tree, virt: set<nat>, id: NasId, r: SgRequest, o: Outside)
    requires WellLinked(t, virt)
    ensures ListsMatch(SetSg(t, virt, id, r, o)) <==> !SetBreaksLists(t, virt, id, r, o)
  {
    var u := SetSg(t, virt, id, r, o);
    if SetStored(t, virt, id, r, o) {
      var prior, next := t.sgs[id], Parsed(t.sgs[id], r);
      if !prior.created || next.parent == prior.parent {
        SetSgStays(t, virt, id, r, o);
      } else if next.port in virt {
        UneditedLists(t, id, next, u);
      } else {
        SetSgLinks(t, id, next, u);
      }
    } else {
      assert u == t;
    }
  }

  /** A stored SET that leaves the parent of a hardware-backed group alone leaves the links alone. */
  lemma SetSgStays(t: Tree, virt: set<nat>, id: NasId, r: SgRequest, o: Outside)
    requires Links(t) && SetStored(t, virt, id, r, o)
    requires t.sgs[id].created ==> Parsed(t.sgs[id], r).parent == t.sgs[id].parent
    ensures Links(SetSg(t, virt, id, r, o))
  {
    var prior, next := t.sgs[id], Parsed(t.sgs[id], r);
    var u := SetSg(t, virt, id, r, o);
    if next.port !in virt && prior.created && (r.parent.Some? || o.staleParent) {
      SetSgLinks(t, id, next, u);
    } else {
      SameParentsLinks(t, id, next, u);
    }
  }

  /** A new parent stored without editing any list. */
  lemma UneditedLists(t: Tree, id: NasId, next: SchedGroup, u: Tree)
    requires Links(t) && id in t.sgs && t.sgs[id].created && next.created
    requires next.children == t.sgs[id].children && next.parent != t.sgs[id].parent
    requires u == t.(sgs := t.sgs[id := next])
    ensures ListsMatch(u) <==> next.parent !in t.sgs && t.sgs[id].parent !in t.sgs
  {
    var from, to := t.sgs[id].parent, next.parent;
    forall c, q ensures QueueChild(u, c, q) <==> QueueChild(t, c, q) {}
    assert SgChild(t, id, from) && SgChild(u, id, to);
    if from in t.sgs {
      assert ListOk(t, from) && id in t.sgs[from].children && !Child(u, id, from);
      assert !ListOk(u, from);
    }
    if to in t.sgs {
      assert ListOk(t, to) && id !in t.sgs[to].children && Child(u, id, to);
      assert !ListOk(u, to);
    }
    forall q | q in t.sgs && q != from && q != to ensures ListOk(u, q) {
      assert ListOk(t, q);
      assert forall c :: Child(u, c, q) <==> Child(t, c, q);
    }
  }

  /** Exactly when a SET keeps the tree well linked, for every request. */
  lemma SetSgLinksExact(t: Tree, virt: set<nat>, id: NasId, r: SgRequest, o: Outside)
    requires WellLinked(t, virt)
    ensures WellLinked(SetSg(t, virt, id, r, o), virt) <==> !SetBreaksLinks(t, virt, id, r, o)
  {
    var u := SetSg(t, virt, id, r, o);
    SetSgShape(t, virt, id, r, o);
    SameIdsOk(t, u);
    if SetStored(t, virt, id, r, o) {
      SetSgPorts(t, virt, id, r, o);
      if !SetBreaksLinks(t, virt, id, r, o) {
        SoundSetLinks(t, virt, id, r, o);
      }
    } else {
      assert u == t;
    }
  }

  lemma SoundSetLinks(t: Tree, virt: set<nat>, id: NasId, r: SgRequest, o: Outside)
    requires Links(t) && SetStored(t, virt, id, r, o) && !SetBreaksLinks(t, virt, id, r, o)
    ensures Links(SetSg(t, virt, id, r, o))
  {
    var prior, next := t.sgs[id], Parsed(t.sgs[id], r);
    if !prior.created || next.parent == prior.parent {
      SetSgStays(t, virt, id, r, o);
    } else {
      SetSgLinks(t, id, next, SetSg(t, virt, id, r, o));
    }
  }

  /** What a stored SET does to ports: only the group's own changes. */
  lemma SetSgPorts(t: Tree, virt: set<nat>, id: NasId, r: SgRequest, o: Outside)
    requires SetStored(t, virt, id, r, o)
    ensures var u, next := SetSg(t, virt, id, r, o), Parsed(t.sgs[id], r);
            && u.sgs.Keys == t.sgs.Keys && u.sgs[id] == next
            && (forall s :: s in t.sgs && s != id ==> u.sgs[s].(children := t.sgs[s].children) == t.sgs[s])
            && (OnRealPorts(t, virt) ==> (OnRealPorts(u, virt) <==> !(next.created && next.port in virt)))
            && (SgsAtHome(t.sgs) ==> (SgsAtHome(u.sgs) <==> (Formed(id) ==> next.port == SgPort(id))))
  {
    RelinkShape(t.sgs, t.sgs[id].parent, Parsed(t.sgs[id], r).parent, id);
  }

  /** A group made its own parent is in no child list at all: the write-back of the stale copy loses the edit. */
  lemma OwnParentIsListedNowhere(t: Tree, virt: set<nat>, id: NasId, r: SgRequest, o: Outside)
    requires WellLinked(t, virt) && SetStored(t, virt, id, r, o) && t.sgs[id].created
    requires Parsed(t.sgs[id], r).port !in virt && r.parent == Some(id)
    ensures var u := SetSg(t, virt, id, r, o);
            && u.sgs[id].parent == id && u.sgs[id].children == t.sgs[id].children
            && forall q :: q in u.sgs ==> id !in u.sgs[q].children
  {
    var u, prior := SetSg(t, virt, id, r, o), t.sgs[id];
    forall q | q in u.sgs ensures id !in u.sgs[q].children {
      assert ListOk(t, q);
      assert id in t.sgs[q].children <==> q == prior.parent;
      WithoutFacts(t.sgs[q].children, id);
    }
  }

  /** One hardware-backed group on port 1, a root with no child. */
  const LONE_GROUP: NasId := SgIdOf(1)
  const LONE_TREE: Tree := Tree(map[], map[LONE_GROUP := SchedGroup(1, 1, 0, 8, 0, [], 5, true)], {}, {1})

  lemma LoneTreeIsLinked()
    ensures WellLinked(LONE_TREE, {7}) && LONE_GROUP != 0
  {
    ReleaseInvertsAlloc(1);
    GeneratedIdValues(1);
    assert forall c, p :: !QueueChild(LONE_TREE, c, p);
  }

  /** The request that names the group itself as parent: afterwards it has a parent but is in no list. */
  lemma OwnParentWitness()
    ensures var r := SgRequest(None, None, None, None, Some(LONE_GROUP));
            var u := SetSg(LONE_TREE, {7}, LONE_GROUP, r, Outside(true, 5, 0, true, false, false, false));
            && WellLinked(LONE_TREE, {7}) && !ListsMatch(u)
            && u.sgs[LONE_GROUP].parent == LONE_GROUP && u.sgs[LONE_GROUP].children == []
  {
    LoneTreeIsLinked();
    var r := SgRequest(None, None, None, None, Some(LONE_GROUP));
    SetSgListsExact(LONE_TREE, {7}, LONE_GROUP, r, Outside(true, 5, 0, true, false, false, false));
  }

  lemma SetSgShape(t: Tree, virt: set<nat>, id: NasId, r: SgRequest, o: Outside)
    ensures var t' := SetSg(t, virt, id, r, o);
            t'.queues == t.queues && t'.queueIds == t.queueIds && t'.sgIds == t.sgIds && t'.sgs.Keys == t.sgs.Keys
  {}

  /** Rewriting fields other than a hardware-backed group's parent touches no link. */
  lemma SameParentsLinks(t: Tree, id: NasId, next: SchedGroup, t': Tree)
    requires Links(t) && id in t.sgs && t' == t.(sgs := t.sgs[id := next])
    requires next.created == t.sgs[id].created && next.children == t.sgs[id].children
    requires next.created ==> next.parent == t.sgs[id].parent
    ensures Links(t')
  {}

  lemma DeleteSgKeeps(t: Tree, virt: set<nat>, id: NasId, o: Outside)
    requires WellLinked(t, virt)
    ensures WellLinked(DeleteSg(t, id, o), virt)
  {
    var t' := DeleteSg(t, id, o);
    if t' != t {
      DeleteSgLinks(t, id, t');
      DeleteSgKeepsIds(t, id, t'.sgs, t'.sgIds);
    }
  }

  lemma DeleteSgKeepsIds(t: Tree, id: NasId, sgs: map<NasId, SchedGroup>, ids: set<nat>)
    requires SgIdsOk(t.sgs, t.sgIds) && id in t.sgs && sgs.Keys == t.sgs.Keys - {id}
    requires ids == if IsAutoFormed(id) then t.sgIds else t.sgIds - {SgRawOf(id)}
    ensures SgIdsOk(sgs, ids)
  {
    if Formed(id) {
      FieldBounds(id);
      FormedIdTags(SgPort(id), SgLevel(id), SgIndex(id));
    }
    forall s | s in sgs && !Formed(s) && !IsAutoFormed(id) ensures SgRawOf(s) != SgRawOf(id) {}
  }

  // ---- Port deletion ----

  /** Every link joins two nodes of the port or none. */
  ghost predicate EdgesInside(t: Tree, port: nat) {
    && (forall k :: k in t.queues && t.queues[k].created && t.queues[k].parent != 0 ==>
          t.queues[k].parent in t.sgs && (k.port == port <==> t.sgs[t.queues[k].parent].port == port))
    && (forall s :: s in t.sgs && t.sgs[s].created && t.sgs[s].parent != 0 ==>
          t.sgs[s].parent in t.sgs && (t.sgs[s].port == port <==> t.sgs[t.sgs[s].parent].port == port))
  }

  /** Which links a port deletion leaves: those of the nodes that stay. */
  lemma ChildrenAfterPort(t: Tree, port: nat, c: NasId, q: NasId)
    requires IdsDistinct(t)
    ensures QueueChild(DeletePort(t, port), c, q) <==>
            exists k ::
              && k in t.queues && k.port != port
              && t.queues[k].id == c && t.queues[k].created && t.queues[k].parent == q
    ensures SgChild(DeletePort(t, port), c, q) <==> SgChild(t, c, q) && t.sgs[c].port != port
  {
    var t' := DeletePort(t, port);
    if k :| k in t.queues && k.port != port && t.queues[k].id == c && t.queues[k].created && t.queues[k].parent == q {
      assert k in t'.queues && t'.queues[k] == t.queues[k];
    }
    if QueueChild(t', c, q) {
      var k :| k in t'.queues && t'.queues[k].id == c && t'.queues[k].created && t'.queues[k].parent == q;
      assert k in t.queues && t'.queues[k] == t.queues[k];
    }
  }

  lemma DeletePortKeepsLists(t: Tree, port: nat)
    requires Links(t) && EdgesInside(t, port)
    ensures Links(DeletePort(t, port))
  {
    var t' := DeletePort(t, port);
    forall q | q in t'.sgs ensures ListOk(t', q) {
      assert ListOk(t, q);
      forall c ensures Child(t', c, q) <==> Child(t, c, q) {
        ChildrenAfterPort(t, port, c, q);
        if QueueChild(t, c, q) {
          var k :| k in t.queues && t.queues[k].id == c && t.queues[k].created && t.queues[k].parent == q;
          assert q != 0 && k.port != port;
        }
      }
    }
  }

  /** Deleting a port keeps the forest exactly when no link crosses the port's boundary. */
  lemma DeletePortKeepsIffInside(t: Tree, virt: set<nat>, port: nat)
    requires WellLinked(t, virt)
    ensures WellLinked(DeletePort(t, port), virt) <==> EdgesInside(t, port)
  {
    var t' := DeletePort(t, port);
    QueueDeletionKeepsIds(t.queues, t.queueIds, port);
    SgDeletionKeepsIds(t.sgs, t.sgIds, port);
    if EdgesInside(t, port) {
      DeletePortKeepsLists(t, port);
    }
    if Links(t') {
      NothingCrosses(t, port);
    }
  }

  lemma NothingCrosses(t: Tree, port: nat)
    requires Links(t) && Links(DeletePort(t, port))
    ensures EdgesInside(t, port)
  {
    forall k | k in t.queues && t.queues[k].created && t.queues[k].parent != 0
      ensures k.port == port <==> t.sgs[t.queues[k].parent].port == port
    {
      CrossingBreaks(t, port, t.queues[k].id, t.queues[k].parent, k.port, Some(k));
    }
    forall s | s in t.sgs && t.sgs[s].created && t.sgs[s].parent != 0
      ensures t.sgs[s].port == port <==> t.sgs[t.sgs[s].parent].port == port
    {
      CrossingBreaks(t, port, s, t.sgs[s].parent, t.sgs[s].port, None);
    }
  }

  /** If the links still match after the deletion, the link from c to p did not cross. */
  lemma CrossingBreaks(t: Tree, port: nat, c: NasId, p: NasId, at: nat, key: Option<Key>)
    requires Links(t) && p != 0 && Links(DeletePort(t, port)) && p in t.sgs
    requires match key
             case Some(k) =>
               && k in t.queues && t.queues[k].id == c && t.queues[k].created
               && t.queues[k].parent == p && at == k.port
             case None => SgChild(t, c, p) && at == t.sgs[c].port
    ensures at == port <==> t.sgs[p].port == port
  {
    var t' := DeletePort(t, port);
    assert Child(t, c, p);
    ChildrenAfterPort(t, port, c, p);
    if t.sgs[p].port != port {
      assert ListOk(t, p) && ListOk(t', p);
      assert Child(t', c, p);
    }
    if at != port {
      assert p in t'.sgs;
    }
  }

  // ---- Rollback ----

  /**
   Rolling a queue re-parenting back (a SET of the saved parent) restores every queue row and
   leaves each child list a permutation of what it was.
   */
  lemma SetQueueUndone(t: Tree, virt: set<nat>, key: Key, parent: NasId, o: Outside, o': Outside)
    requires WellLinked(t, virt) && key in t.queues && t.queues[key].created
    requires o.accepts && o'.accepts && Resolves(t.sgs, parent)
    ensures var done := SetQueue(t, virt, key, Some(parent), o);
            var undone := SetQueue(done, virt, key, Some(t.queues[key].parent), o');
            && undone.queues == t.queues
            && undone.sgs.Keys == t.sgs.Keys
            && (forall p :: p in t.sgs ==> undone.sgs[p].(children := t.sgs[p].children) == t.sgs[p])
            && (forall p :: p in t.sgs ==> multiset(undone.sgs[p].children) == multiset(t.sgs[p].children))
  {
    var done := SetQueue(t, virt, key, Some(parent), o);
    var undone := SetQueue(done, virt, key, Some(t.queues[key].parent), o');
    SetQueueKeepsLinks(t, virt, key, Some(parent), o);
    SetQueueKeepsLinks(done, virt, key, Some(t.queues[key].parent), o');
    SetQueueTwice(t, virt, key, parent, o, o');
    SameListsUpToOrder(t, undone);
  }

  lemma SetQueueTwice(t: Tree, virt: set<nat>, key: Key, parent: NasId, o: Outside, o': Outside)
    requires WellLinked(t, virt) && key in t.queues && t.queues[key].created
    requires o.accepts && o'.accepts && Resolves(t.sgs, parent)
    ensures var done := SetQueue(t, virt, key, Some(parent), o);
            var undone := SetQueue(done, virt, key, Some(t.queues[key].parent), o');
            && undone.queues == t.queues && undone.sgs.Keys == t.sgs.Keys
            && forall s :: s in t.sgs ==> undone.sgs[s].(children := t.sgs[s].children) == t.sgs[s]
  {
    var back := t.queues[key].parent;
    var done := SetQueue(t, virt, key, Some(parent), o);
    SetQueueRow(t, virt, key, parent, o);
    SetQueueShape(t, virt, key, Some(parent), o);
    BackAgain(t, virt, key, parent, done, back, o');
  }

  lemma BackAgain(t: Tree, virt: set<nat>, key: Key, parent: NasId, done: Tree, back: NasId, o: Outside)
    requires key in t.queues && key.port !in virt && o.accepts && Resolves(t.sgs, back) && back == t.queues[key].parent
    requires done.queues == t.queues[key := t.queues[key].(parent := parent)] && done.sgs.Keys == t.sgs.Keys
    requires forall s :: s in t.sgs ==> done.sgs[s].(children := t.sgs[s].children) == t.sgs[s]
    ensures var undone := SetQueue(done, virt, key, Some(back), o);
            && undone.queues == t.queues && undone.sgs.Keys == t.sgs.Keys
            && forall s :: s in t.sgs ==> undone.sgs[s].(children := t.sgs[s].children) == t.sgs[s]
  {
    SetQueueRow(done, virt, key, back, o);
    SetQueueShape(done, virt, key, Some(back), o);
    assert done.queues[key := done.queues[key].(parent := back)] == t.queues;
  }

  lemma SetQueueRow(t: Tree, virt: set<nat>, key: Key, parent: NasId, o: Outside)
    requires key in t.queues && key.port !in virt && o.accepts && Resolves(t.sgs, parent)
    ensures SetQueue(t, virt, key, Some(parent), o).queues == t.queues[key := t.queues[key].(parent := parent)]
  {}

  /** The links determine each child list up to order. */
  lemma SameListsUpToOrder(t: Tree, u: Tree)
    requires ListsMatch(t) && ListsMatch(u) && u.queues == t.queues && u.sgs.Keys == t.sgs.Keys
    requires forall s :: s in t.sgs ==> u.sgs[s].created == t.sgs[s].created && u.sgs[s].parent == t.sgs[s].parent
    ensures forall p :: p in t.sgs ==> multiset(u.sgs[p].children) == multiset(t.sgs[p].children)
  {
    forall p | p in t.sgs ensures multiset(u.sgs[p].children) == multiset(t.sgs[p].children) {
      assert ListOk(t, p) && ListOk(u, p);
      forall c ensures c in t.sgs[p].children <==> c in u.sgs[p].children {
        assert QueueChild(t, c, p) <==> QueueChild(u, c, p);
      }
      SameElements(t.sgs[p].children, u.sgs[p].children);
    }
  }

  lemma {:induction false} SameElements(a: seq<NasId>, b: seq<NasId>)
    requires NoDup(a) && NoDup(b) && forall c :: c in a <==> c in b
    ensures multiset(a) == multiset(b)
  {
    forall c ensures multiset(a)[c] == multiset(b)[c] {
      CountOfDistinct(a, c);
      CountOfDistinct(b, c);
    }
  }

  lemma {:induction false} CountOfDistinct(a: seq<NasId>, c: NasId)
    requires NoDup(a)
    ensures multiset(a)[c] == if c in a then 1 else 0
  {
    if a != [] {
      var front, last := a[..|a| - 1], a[|a| - 1];
      assert a == front + [last];
      AppendNoDup(front, last);
      CountOfDistinct(front, c);
    }
  }

  /** Taking a newly listed child out again restores the table. */
  lemma AddedChildGone(sgs: map<NasId, SchedGroup>, p: NasId, c: NasId)
    requires p in sgs ==> c !in sgs[p].children
    ensures DelChild(AddChild(sgs, p, c), p, c) == sgs
  {
    if p in sgs {
      var list := sgs[p].children;
      assert (list + [c])[..|list|] == list;
      WithoutFacts(list, c);
      assert sgs[p].(children := list) == sgs[p];
    }
  }

  /** Rolling back the creation of a queue, by deleting it, restores the tree completely. */
  lemma CreateQueueUndone(t: Tree, virt: set<nat>, key: Key, parent: Option<NasId>, o: Outside, o': Outside)
    requires WellLinked(t, virt) && CreateQueue(t, key, parent, o) != t && o'.accepts
    ensures DeleteQueue(CreateQueue(t, key, parent, o), key, o') == t
  {
    var id, p := QueueIdOf(o.choice), parent.value;
    FreshQueueId(t, o.choice);
    NewIdUnlisted(t, id, p);
    AddedChildGone(t.sgs, p, id);
    var u := CreateQueue(t, key, parent, o);
    assert u.queues - {key} == t.queues;
    assert t.queueIds + {o.choice} - {o.choice} == t.queueIds;
  }

  lemma NewIdUnlisted(t: Tree, id: NasId, p: NasId)
    requires ListsMatch(t) && id !in t.sgs && forall k :: k in t.queues ==> t.queues[k].id != id
    ensures p in t.sgs ==> id !in t.sgs[p].children
  {
    if p in t.sgs {
      assert ListOk(t, p) && !Child(t, id, p);
    }
  }

  /**
   Rolling back the deletion of a queue creates it again from the saved attributes: refused when the
   parent was never set; else, if nothing fails, the key has a row under the earlier parent again, but
   with a newly taken id, a new hardware id and no shadow queues, and that id stands last in the
   parent's list.
   */
  lemma DeleteQueueUndone(t: Tree, virt: set<nat>, key: Key, parentSaved: bool, o: Outside, o': Outside)
    requires WellLinked(t, virt) && key in t.queues && o.accepts
    ensures var prior, deleted := t.queues[key], DeleteQueue(t, key, o);
            var undone := CreateQueue(deleted, key, if parentSaved then Some(prior.parent) else None, o');
            if !parentSaved || !o'.portKnown || !o'.accepts || !Resolves(t.sgs, prior.parent)
               || !IsFree(deleted.queueIds, QUEUE_ID_MAX, o'.choice)
            then undone == deleted
            else
              var id := QueueIdOf(o'.choice);
              && undone.queues == t.queues[key := Queue(id, prior.parent, o'.ndi, true, [])]
              && undone.queueIds == t.queueIds - {QueueRawOf(prior.id)} + {o'.choice} && undone.sgIds == t.sgIds
              && undone.sgs.Keys == t.sgs.Keys
              && forall s :: s in t.sgs ==>
                   undone.sgs[s] ==
                   if s == prior.parent then t.sgs[s].(children := Without(t.sgs[s].children, prior.id) + [id])
                   else t.sgs[s]
  {
    var prior := t.queues[key];
    assert (t.queues - {key})[key := Queue(QueueIdOf(o'.choice), prior.parent, o'.ndi, true, [])]
        == t.queues[key := Queue(QueueIdOf(o'.choice), prior.parent, o'.ndi, true, [])];
  }

  /** Rolling back the creation of a group restores the tree completely. */
  lemma CreateSgUndone(t: Tree, virt: set<nat>, r: SgRequest, o: Outside, o': Outside)
    requires WellLinked(t, virt) && CreateSg(t, r, o) != t && o'.accepts
    ensures DeleteSg(CreateSg(t, r, o), SgIdOf(o.choice), o') == t
  {
    var id, p := SgIdOf(o.choice), r.parent.value;
    FreshSgId(t, o.choice);
    GeneratedIdTags(o.choice);
    NewIdUnlisted(t, id, p);
    var row := SchedGroup(r.port.value, r.level.value, r.profile.value, r.maxChild.value, p, [], o.ndi, true);
    NewGroupGone(t.sgs, id, row, p);
    assert t.sgIds + {o.choice} - {o.choice} == t.sgIds;
  }

  lemma NewGroupGone(sgs: map<NasId, SchedGroup>, id: NasId, row: SchedGroup, p: NasId)
    requires id !in sgs && p != id && (p in sgs ==> id !in sgs[p].children) && row.children == []
    ensures DelChild(AddChild(sgs[id := row], p, id), p, id) - {id} == sgs
    ensures AddChild(sgs[id := row], p, id)[id] == row
  {
    AddedChildGone(sgs[id := row], p, id);
  }

  /**
   Rolling back a SET of a group's parent and profile restores every row and leaves each child list a
   permutation of what it was.
   */
  lemma SetSgUndone(t: Tree, virt: set<nat>, id: NasId, parent: NasId, profile: Option<NasId>, o: Outside, o': Outside)
    requires WellLinked(t, virt) && id in t.sgs && t.sgs[id].created && parent != id
    requires var r := SgRequest(None, None, profile, None, Some(parent));
             && SetAllowed(t.sgs[id], r, o) && o.accepts && Resolves(t.sgs, parent)
             && SetAllowed(t.sgs[id], r, o') && o'.accepts
    ensures var r := SgRequest(None, None, profile, None, Some(parent));
            var attrs := if profile.Some? then {SgProfile, SgParent} else {SgParent};
            var undone := SetSg(SetSg(t, virt, id, r, o), virt, id, SavedSg(t.sgs[id], attrs), o');
            && undone.queues == t.queues
            && undone.sgs.Keys == t.sgs.Keys
            && (forall s :: s in t.sgs ==> undone.sgs[s].(children := t.sgs[s].children) == t.sgs[s])
            && (forall s :: s in t.sgs ==> multiset(undone.sgs[s].children) == multiset(t.sgs[s].children))
  {
    var r := SgRequest(None, None, profile, None, Some(parent));
    var saved := SavedSg(t.sgs[id], if profile.Some? then {SgProfile, SgParent} else {SgParent});
    SgRowsBack(t, virt, id, r, saved, o, o');
    SgListsBack(t, virt, id, r, saved, o, o');
  }

  lemma SgListsBack(t: Tree, virt: set<nat>, id: NasId, r: SgRequest, saved: SgRequest, o: Outside, o': Outside)
    requires WellLinked(t, virt) && id in t.sgs && t.sgs[id].created && t.sgs[id].port !in virt
    requires r.port.None? && r.parent.Some? && r.parent.value != id
    requires var done := SetSg(t, virt, id, r, o);
             var undone := SetSg(done, virt, id, saved, o');
             && done.sgs.Keys == t.sgs.Keys && Parsed(done.sgs[id], saved) == t.sgs[id]
             && undone.queues == t.queues && undone.sgs.Keys == t.sgs.Keys
             && forall s :: s in t.sgs ==> undone.sgs[s].(children := t.sgs[s].children) == t.sgs[s]
    ensures var undone := SetSg(SetSg(t, virt, id, r, o), virt, id, saved, o');
            forall s :: s in t.sgs ==> multiset(undone.sgs[s].children) == multiset(t.sgs[s].children)
  {
    var done := SetSg(t, virt, id, r, o);
    SoundSetKeeps(t, virt, id, r, o);
    SoundSetKeeps(done, virt, id, saved, o');
    SameRowsSameLists(t, SetSg(done, virt, id, saved, o'));
  }

  lemma SameRowsSameLists(t: Tree, u: Tree)
    requires ListsMatch(t) && ListsMatch(u) && u.queues == t.queues && u.sgs.Keys == t.sgs.Keys
    requires forall s :: s in t.sgs ==> u.sgs[s].(children := t.sgs[s].children) == t.sgs[s]
    ensures forall s :: s in t.sgs ==> multiset(u.sgs[s].children) == multiset(t.sgs[s].children)
  {
    forall s | s in t.sgs ensures u.sgs[s].created == t.sgs[s].created && u.sgs[s].parent == t.sgs[s].parent {
      assert u.sgs[s].(children := t.sgs[s].children) == t.sgs[s];
    }
    SameListsUpToOrder(t, u);
  }

  lemma SoundSetKeeps(t: Tree, virt: set<nat>, id: NasId, r: SgRequest, o: Outside)
    requires WellLinked(t, virt) && id in t.sgs
    requires Parsed(t.sgs[id], r).port !in virt && Parsed(t.sgs[id], r).parent != id
    ensures WellLinked(SetSg(t, virt, id, r, o), virt)
  {
    SetSgLinksExact(t, virt, id, r, o);
  }

  lemma SgRowsBack(t: Tree, virt: set<nat>, id: NasId, r: SgRequest, saved: SgRequest, o: Outside, o': Outside)
    requires id in t.sgs && t.sgs[id].port !in virt && r.parent.Some?
    requires r.port.None? && r.level.None? && r.maxChild.None?
    requires var prior := t.sgs[id];
             && saved == SgRequest(None, None, if r.profile.Some? then Some(prior.profile) else None, None,
                                   Some(prior.parent))
             && Resolves(t.sgs, r.parent.value) && Resolves(t.sgs, prior.parent)
             && SetAllowed(prior, r, o) && o.accepts && SetAllowed(prior, r, o') && o'.accepts
    ensures var done := SetSg(t, virt, id, r, o);
            var undone := SetSg(done, virt, id, saved, o');
            && done.sgs.Keys == t.sgs.Keys && done.sgs[id] == Parsed(t.sgs[id], r)
            && SetAllowed(done.sgs[id], saved, o') && Parsed(done.sgs[id], saved) == t.sgs[id]
            && undone.queues == t.queues && undone.sgs.Keys == t.sgs.Keys
            && (forall s :: s in t.sgs ==> undone.sgs[s].(children := t.sgs[s].children) == t.sgs[s])
  {
    var done := SetSg(t, virt, id, r, o);
    SetRows(t, virt, id, r, o);
    assert Parsed(done.sgs[id], saved) == t.sgs[id];
    SetRows(done, virt, id, saved, o');
  }

  /** The rows an accepted SET leaves on a hardware port. */
  lemma SetRows(t: Tree, virt: set<nat>, id: NasId, r: SgRequest, o: Outside)
    requires id in t.sgs && SetAllowed(t.sgs[id], r, o) && o.accepts && Parsed(t.sgs[id], r).port !in virt
    requires r.parent.Some? && Resolves(t.sgs, r.parent.value)
    ensures var u := SetSg(t, virt, id, r, o);
            && u.queues == t.queues && u.queueIds == t.queueIds && u.sgIds == t.sgIds
            && u.sgs.Keys == t.sgs.Keys && u.sgs[id] == Parsed(t.sgs[id], r)
            && (forall s :: s in t.sgs && s != id ==> u.sgs[s].(children := t.sgs[s].children) == t.sgs[s])
  {
    RelinkShape(t.sgs, t.sgs[id].parent, r.parent.value, id);
  }

  datatype SgAttr = SgPortId | SgLevelAttr | SgProfile | SgMaxChild | SgParent

  /** nas_qos_store_prev_attr of a scheduler group: PORT_ID carries the level, LEVEL is never stored. */
  function SavedSg(row: SchedGroup, attrs: set<SgAttr>): SgRequest {
    SgRequest(if SgPortId in attrs then Some(row.level) else None,
              None,
              if SgProfile in attrs then Some(row.profile) else None,
              if SgMaxChild in attrs then Some(row.maxChild) else None,
              if SgParent in attrs then Some(row.parent) else None)
  }

  /**
   A deleted scheduler group is never brought back: whatever attributes were set on it, the saved
   request lacks the mandatory level, so the rollback's CREATE is refused and changes nothing.
   */
  lemma DeletedSgIsNeverRestored(t: Tree, id: NasId, attrs: set<SgAttr>, o: Outside, o': Outside)
    requires id in t.sgs && t.sgs[id].children == [] && o.accepts
    ensures var deleted := DeleteSg(t, id, o);
            CreateSg(deleted, SavedSg(t.sgs[id], attrs), o') == deleted && id !in deleted.sgs
  {}
}
