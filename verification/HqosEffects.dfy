/** What an accepted operation on the tree achieves: whose child the node is afterwards, and its id. */
module HqosEffects {
  import opened Wrappers
  import opened NasIds
  import opened IdGenerator
  import opened OrderedKeys
  import opened QosRows
  import opened QosSwitches
  import opened HqosForest
  import opened HqosRequests
  import opened HqosSteps

  /** The node is in exactly one child list, that of p; in none if p is null. */
  ghost predicate ListedUnder(t: Tree, c: NasId, p: NasId) {
    forall q :: q in t.sgs ==> (c in t.sgs[q].children <==> q == p)
  }

  lemma QueueIsListed(t: Tree, key: Key)
    requires Links(t) && key in t.queues && t.queues[key].created
    ensures ListedUnder(t, t.queues[key].id, t.queues[key].parent)
  {
    var id := t.queues[key].id;
    forall q | q in t.sgs ensures id in t.sgs[q].children <==> q == t.queues[key].parent {
      assert ListOk(t, q);
      assert QueueChild(t, id, q) <==> q == t.queues[key].parent;
    }
  }

  lemma GroupIsListed(t: Tree, s: NasId)
    requires Links(t) && s in t.sgs && t.sgs[s].created
    ensures ListedUnder(t, s, t.sgs[s].parent)
  {
    forall q | q in t.sgs ensures s in t.sgs[q].children <==> q == t.sgs[s].parent {
      assert ListOk(t, q);
    }
  }

  lemma StrangerIsUnlisted(t: Tree, c: NasId)
    requires Links(t) && c !in t.sgs && forall k :: k in t.queues ==> t.queues[k].id != c
    ensures forall q :: q in t.sgs ==> c !in t.sgs[q].children
  {
    forall q | q in t.sgs ensures c !in t.sgs[q].children {
      assert ListOk(t, q);
      assert !Child(t, c, q);
    }
  }

  /** Every hardware-backed node is in the child list of its own parent and in no other. */
  lemma EveryNodeIsListedOnce(t: Tree, virt: set<nat>)
    requires WellLinked(t, virt)
    ensures forall k :: k in t.queues && t.queues[k].created ==> ListedUnder(t, t.queues[k].id, t.queues[k].parent)
    ensures forall s :: s in t.sgs && t.sgs[s].created ==> ListedUnder(t, s, t.sgs[s].parent)
  {
    forall k | k in t.queues && t.queues[k].created ensures ListedUnder(t, t.queues[k].id, t.queues[k].parent) {
      QueueIsListed(t, k);
    }
    forall s | s in t.sgs && t.sgs[s].created ensures ListedUnder(t, s, t.sgs[s].parent) {
      GroupIsListed(t, s);
    }
  }

  /**
   A create adds exactly the named queue, under the requested parent, with an id taken from the
   generator; or nothing.
   */
  lemma CreatedQueue(t: Tree, virt: set<nat>, key: Key, parent: Option<NasId>, o: Outside)
    requires WellLinked(t, virt) && key.port !in virt
    ensures var u := CreateQueue(t, key, parent, o);
            if !QueueCreatable(t, key, parent, o) then u == t
            else
              && key in u.queues && u.queues - {key} == t.queues && u.queues[key].parent == parent.value
              && u.queueIds - {QueueRawOf(u.queues[key].id)} == t.queueIds
              && QueueRawOf(u.queues[key].id) !in t.queueIds
              && ListedUnder(u, u.queues[key].id, parent.value)
  {
    var u := CreateQueue(t, key, parent, o);
    if QueueCreatable(t, key, parent, o) {
      FreshQueueId(t, o.choice);
      CreateQueueKeeps(t, virt, key, parent, o);
      QueueIsListed(u, key);
      assert u.queues - {key} == t.queues;
      assert u.queueIds - {o.choice} == t.queueIds;
    }
  }

  /** An accepted set moves a hardware-backed queue to the requested parent and touches no other queue. */
  lemma MovedQueueIsListed(t: Tree, virt: set<nat>, key: Key, parent: NasId, o: Outside)
    requires WellLinked(t, virt) && key in t.queues && t.queues[key].created && o.accepts && Resolves(t.sgs, parent)
    ensures var u := SetQueue(t, virt, key, Some(parent), o);
            && key in u.queues && u.queues[key].parent == parent && u.queues - {key} == t.queues - {key}
            && ListedUnder(u, t.queues[key].id, parent)
  {
    SetQueueKeeps(t, virt, key, Some(parent), o);
    SetQueueRow(t, virt, key, parent, o);
    QueueIsListed(SetQueue(t, virt, key, Some(parent), o), key);
  }

  /** An accepted delete takes exactly the named queue out, gives its id back, and leaves it in no list. */
  lemma DeletedQueue(t: Tree, virt: set<nat>, key: Key, o: Outside)
    requires WellLinked(t, virt) && key in t.queues && o.accepts
    ensures var u := DeleteQueue(t, key, o);
            && u.queues == t.queues - {key} && u.queueIds == t.queueIds - {QueueRawOf(t.queues[key].id)}
            && forall q :: q in u.sgs ==> t.queues[key].id !in u.sgs[q].children
  {
    DeleteQueueKeeps(t, virt, key, o);
    StrangerIsUnlisted(DeleteQueue(t, key, o), t.queues[key].id);
  }

  /**
   A create with all mandatory attributes adds one group under the requested parent, with a
   generated id and no child; or nothing.
   */
  lemma CreatedGroup(t: Tree, virt: set<nat>, r: SgRequest, o: Outside)
    requires WellLinked(t, virt) && (r.port.Some? ==> r.port.value !in virt)
    ensures var (u, id) := (CreateSg(t, r, o), SgIdOf(o.choice));
            if !SgCreatable(t, r, o, id) then u == t
            else
              && u.sgs.Keys == t.sgs.Keys + {id} && id !in t.sgs && u.sgIds == t.sgIds + {o.choice}
              && u.sgs[id].children == [] && u.sgs[id].level == r.level.value && ListedUnder(u, id, r.parent.value)
    ensures IsFree(t.sgIds, SG_ID_MAX, o.choice) ==> SgIdOf(o.choice) !in t.sgs
  {
    if IsFree(t.sgIds, SG_ID_MAX, o.choice) {
      FreshSgId(t, o.choice);
    }
    var u, id := CreateSg(t, r, o), SgIdOf(o.choice);
    if SgCreatable(t, r, o, id) {
      FreshSgId(t, o.choice);
      CreateSgKeeps(t, virt, r, o);
      GroupIsListed(u, id);
      var row := SchedGroup(r.port.value, r.level.value, r.profile.value, r.maxChild.value,
                            r.parent.value, [], o.ndi, true);
      NewGroupRow(t, id, r.parent.value, row);
    }
  }

  lemma NewGroupRow(t: Tree, id: NasId, p: NasId, row: SchedGroup)
    requires Links(t) && id != 0 && id !in t.sgs && Resolves(t.sgs, p)
    ensures AddChild(t.sgs[id := row], p, id).Keys == t.sgs.Keys + {id} && AddChild(t.sgs[id := row], p, id)[id] == row
  {}

  /**
   An accepted set moves a hardware-backed group to the requested parent, other than itself, and
   keeps its own list.
   */
  lemma MovedGroupIsListed(t: Tree, virt: set<nat>, id: NasId, r: SgRequest, o: Outside)
    requires WellLinked(t, virt) && id in t.sgs && t.sgs[id].created && Parsed(t.sgs[id], r).port !in virt
    requires SetAllowed(t.sgs[id], r, o) && o.accepts
    requires r.parent.Some? && Resolves(t.sgs, r.parent.value) && r.parent.value != id
    ensures var u := SetSg(t, virt, id, r, o);
            && id in u.sgs && u.sgs[id] == Parsed(t.sgs[id], r) && u.sgs[id].children == t.sgs[id].children
            && ListedUnder(u, id, r.parent.value)
  {
    SetSgLinksExact(t, virt, id, r, o);
    GroupIsListed(SetSg(t, virt, id, r, o), id);
  }

  /** An accepted delete of a group without children takes it out of the table and of every list. */
  lemma DeletedGroup(t: Tree, virt: set<nat>, id: NasId, o: Outside)
    requires WellLinked(t, virt) && id in t.sgs && t.sgs[id].children == [] && o.accepts
    ensures var u := DeleteSg(t, id, o);
            && u.sgs.Keys == t.sgs.Keys - {id} && u.queues == t.queues
            && forall q :: q in u.sgs ==> id !in u.sgs[q].children
  {
    DeleteSgKeeps(t, virt, id, o);
    StrangerIsUnlisted(DeleteSg(t, id, o), id);
  }

  // ---- Undo of a SET ----

  /** The attributes a request gives. */
  ghost function GivenAttrs(r: SgRequest): set<SgAttr> {
    (if r.port.Some? then {SgPortId} else {}) + (if r.level.Some? then {SgLevelAttr} else {})
    + (if r.profile.Some? then {SgProfile} else {}) + (if r.maxChild.Some? then {SgMaxChild} else {})
    + (if r.parent.Some? then {SgParent} else {})
  }

  /** The SET can be undone: no port is given, or the old port and level are one number, and no other level. */
  predicate Undoable(was: SchedGroup, r: SgRequest) {
    (r.port.Some? ==> was.port == was.level) && (r.level.Some? ==> r.level.value == was.level)
  }

  /** The row after an undo: port and level as told, all else as before. */
  ghost predicate RowUndone(was: SchedGroup, r: SgRequest, now: SchedGroup) {
    && (now == was <==> Undoable(was, r))
    && now.port == (if r.port.Some? then was.level else was.port)
    && now.level == (if r.level.Some? then r.level.value else was.level)
    && now == was.(port := now.port, level := now.level)
  }

  lemma SavedRowBack(was: SchedGroup, r: SgRequest, mid: SchedGroup, now: SchedGroup)
    requires r.maxChild.None? && SgTakes(r, was, mid) && SgTakes(SavedSg(was, GivenAttrs(r)), mid, now)
    ensures RowUndone(was, r, now)
  {
    var saved := SavedSg(was, GivenAttrs(r));
    assert saved.port == (if r.port.Some? then Some(was.level) else None);
    assert saved.profile == (if r.profile.Some? then Some(was.profile) else None);
    assert saved.parent == (if r.parent.Some? then Some(was.parent) else None);
  }

  /** What a stored SET leaves, for short. */
  lemma SetSgRow(t: Tree, virt: set<nat>, id: NasId, r: SgRequest, o: Outside)
    requires SgSettable(t, virt, id, r, o)
    ensures var u := SetSg(t, virt, id, r, o);
            && id in u.sgs && SgTakes(r, t.sgs[id], u.sgs[id]) && u.queues == t.queues && u.sgs.Keys == t.sgs.Keys
            && forall s :: s in t.sgs && s != id ==> SameButList(u.sgs[s], t.sgs[s])
  {
    SetSgTakesEffect(t, virt, id, r, o);
    var u := SetSg(t, virt, id, r, o);
    assert forall s :: s != id ==> (s in u.sgs <==> s in t.sgs) && (s in t.sgs ==> SameButList(u.sgs[s], t.sgs[s]));
  }

  /**
   Undoing a stored SET by its saved attributes brings the group's row back exactly when it is
   undoable: the level is saved as the port, and never as the level. The rest is restored always.
   */
  lemma SetSgUndoneExact(t: Tree, virt: set<nat>, id: NasId, r: SgRequest, o: Outside, o': Outside)
    requires SgSettable(t, virt, id, r, o)
    requires SgSettable(SetSg(t, virt, id, r, o), virt, id, SavedSg(t.sgs[id], GivenAttrs(r)), o')
    ensures var undone := SetSg(SetSg(t, virt, id, r, o), virt, id, SavedSg(t.sgs[id], GivenAttrs(r)), o');
            && id in undone.sgs && RowUndone(t.sgs[id], r, undone.sgs[id])
            && undone.queues == t.queues && undone.sgs.Keys == t.sgs.Keys
            && forall s :: s in t.sgs && s != id ==> SameButList(undone.sgs[s], t.sgs[s])
  {
    var done := SetSg(t, virt, id, r, o);
    var saved := SavedSg(t.sgs[id], GivenAttrs(r));
    SetSgRow(t, virt, id, r, o);
    SetSgRow(done, virt, id, saved, o');
    SavedRowBack(t.sgs[id], r, done.sgs[id], SetSg(done, virt, id, saved, o').sgs[id]);
  }
}
