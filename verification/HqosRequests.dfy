/**
 What each CPS request on a queue or scheduler group leaves behind, field by field, and when it is
 refused. A refused request changes nothing.
 */
module HqosRequests {
  import opened Wrappers
  import opened NasIds
  import opened IdGenerator
  import opened OrderedKeys
  import opened QosRows
  import opened QosSwitches
  import opened HqosForest

  /** The field holds what was asked for, or else what it held before. */
  predicate Takes<T(==)>(asked: Option<T>, was: T, now: T) {
    match asked case Some(v) => now == v case None => now == was
  }

  /** The groups differ in their child lists at most. */
  predicate SameButList(a: SchedGroup, b: SchedGroup) {
    && a.port == b.port && a.level == b.level && a.profile == b.profile && a.maxChild == b.maxChild
    && a.parent == b.parent && a.ndi == b.ndi && a.created == b.created
  }

  /** What is left of a list, in order, when every c goes. */
  function Rest(list: seq<NasId>, c: NasId): seq<NasId> {
    if list == [] then [] else (if list[0] == c then [] else [list[0]]) + Rest(list[1..], c)
  }

  lemma {:induction false} RestOfFront(front: seq<NasId>, last: NasId, c: NasId)
    ensures Rest(front + [last], c) == Rest(front, c) + if last == c then [] else [last]
  {
    if front != [] {
      RestOfFront(front[1..], last, c);
      assert (front + [last])[1..] == front[1..] + [last];
    }
  }

  lemma {:induction false} WithoutIsRest(list: seq<NasId>, c: NasId)
    ensures Without(list, c) == Rest(list, c)
  {
    if list != [] {
      WithoutIsRest(list[..|list| - 1], c);
      RestOfFront(list[..|list| - 1], list[|list| - 1], c);
      assert list == list[..|list| - 1] + [list[|list| - 1]];
    }
  }

  /** Child c leaves the list of one group for the end of another's; either may be absent. */
  ghost predicate ListsEdited(t: Tree, u: Tree, c: NasId, from: Option<NasId>, to: Option<NasId>, q: NasId)
    requires q in t.sgs && q in u.sgs
  {
    u.sgs[q].children == (if from == Some(q) then Rest(t.sgs[q].children, c) else t.sgs[q].children)
                         + if to == Some(q) then [c] else []
  }

  /** Every group but the one named is as it was, beside the lists c moves between. */
  ghost predicate OtherGroups(t: Tree, u: Tree, but: NasId, c: NasId, from: Option<NasId>, to: Option<NasId>) {
    forall q :: q != but ==>
                  && (q in u.sgs <==> q in t.sgs)
                  && (q in t.sgs ==> SameButList(u.sgs[q], t.sgs[q]) && ListsEdited(t, u, c, from, to, q))
  }

  /** No group is new or gone, and none differs but for c moving between lists. */
  ghost predicate OnlyListsEdited(t: Tree, u: Tree, c: NasId, from: Option<NasId>, to: Option<NasId>) {
    && u.sgs.Keys == t.sgs.Keys
    && forall q :: q in t.sgs ==> SameButList(u.sgs[q], t.sgs[q]) && ListsEdited(t, u, c, from, to, q)
  }

  ghost predicate OtherQueues(t: Tree, u: Tree, but: Key) {
    forall k :: k != but ==> (k in u.queues <==> k in t.queues) && (k in t.queues ==> u.queues[k] == t.queues[k])
  }

  // ---- Queues ----

  predicate QueueCreatable(t: Tree, key: Key, parent: Option<NasId>, o: Outside) {
    && parent.Some? && o.portKnown && o.accepts && (parent.value == 0 || parent.value in t.sgs)
    && key !in t.queues && 0 < o.choice <= 0xFFFF && o.choice !in t.queueIds
  }

  /** A create adds the queue with the requested parent and the hardware's id, last in the parent's list. */
  lemma CreateQueueTakesEffect(t: Tree, key: Key, parent: Option<NasId>, o: Outside, id: NasId)
    requires id == QueueIdOf(o.choice)
    ensures var u := CreateQueue(t, key, parent, o);
            if !QueueCreatable(t, key, parent, o) then u == t
            else
              && key in u.queues && u.queues[key].id == id && u.queues[key].parent == parent.value
              && u.queues[key].ndi == o.ndi && u.queues[key].created && u.queues[key].shadows == []
              && OtherQueues(t, u, key) && u.queueIds == t.queueIds + {o.choice} && u.sgIds == t.sgIds
              && OnlyListsEdited(t, u, id, None, parent)
  {}

  /** The parent is known to be dirty on the copy that is pushed. */
  predicate Repushed(parent: Option<NasId>, o: Outside) {
    parent.Some? || o.staleParent
  }

  /** Given or not, the parent the node has afterwards is null or in the table. */
  predicate NextParentKnown(t: Tree, parent: Option<NasId>, was: NasId) {
    match parent
    case Some(p) => p == 0 || p in t.sgs
    case None => was == 0 || was in t.sgs
  }

  /** The set goes to the hardware: a backed node of a real port. */
  predicate QueuePushed(t: Tree, virt: set<nat>, key: Key) {
    key in t.queues && key.port !in virt && t.queues[key].created
  }

  predicate QueueSettable(t: Tree, virt: set<nat>, key: Key, parent: Option<NasId>, o: Outside) {
    && key in t.queues
    && (QueuePushed(t, virt, key) ==>
          o.accepts && (Repushed(parent, o) ==> NextParentKnown(t, parent, t.queues[key].parent)))
  }

  /** A set changes the parent only, if one is given; the lists follow if the set went to the hardware. */
  lemma SetQueueTakesEffect(t: Tree, virt: set<nat>, key: Key, parent: Option<NasId>, o: Outside)
    ensures var u := SetQueue(t, virt, key, parent, o);
            if !QueueSettable(t, virt, key, parent, o) then u == t
            else
              && u.queueIds == t.queueIds && u.sgIds == t.sgIds
              && OtherQueues(t, u, key) && key in u.queues
              && var (was, now) := (t.queues[key], u.queues[key]);
              && Takes(parent, was.parent, now.parent) && now.id == was.id && now.ndi == was.ndi
              && now.created == was.created && now.shadows == was.shadows
              && if QueuePushed(t, virt, key) && Repushed(parent, o) then
                   OnlyListsEdited(t, u, was.id, Some(was.parent), Some(now.parent))
                 else u.sgs == t.sgs
  {
    if key in t.queues && t.queues[key].parent in t.sgs {
      WithoutIsRest(t.sgs[t.queues[key].parent].children, t.queues[key].id);
    }
  }

  predicate QueueDeletable(t: Tree, key: Key, o: Outside) {
    key in t.queues && o.accepts
  }

  /** A delete takes the queue out of the table and its parent's list, and gives its id back. */
  lemma DeleteQueueTakesEffect(t: Tree, key: Key, o: Outside)
    ensures var u := DeleteQueue(t, key, o);
            if !QueueDeletable(t, key, o) then u == t
            else
              && key !in u.queues && OtherQueues(t, u, key) && u.sgIds == t.sgIds
              && u.queueIds == t.queueIds - {QueueRawOf(t.queues[key].id)}
              && OnlyListsEdited(t, u, t.queues[key].id, Some(t.queues[key].parent), None)
  {
    if key in t.queues && t.queues[key].parent in t.sgs {
      WithoutIsRest(t.sgs[t.queues[key].parent].children, t.queues[key].id);
    }
  }

  // ---- Scheduler groups ----

  predicate SgCreatable(t: Tree, r: SgRequest, o: Outside, id: NasId) {
    && r.port.Some? && r.level.Some? && r.profile.Some? && r.maxChild.Some? && r.parent.Some?
    && o.portKnown && o.accepts && (r.parent.value == 0 || r.parent.value in t.sgs)
    && 0 < o.choice <= 0xFFFF && o.choice !in t.sgIds && id !in t.sgs
  }

  /** A create adds a childless group with every requested value, last in its parent's list. */
  lemma CreateSgTakesEffect(t: Tree, r: SgRequest, o: Outside, id: NasId)
    requires id == SgIdOf(o.choice)
    ensures var u := CreateSg(t, r, o);
            if !SgCreatable(t, r, o, id) then u == t
            else
              && u.queues == t.queues && u.queueIds == t.queueIds && u.sgIds == t.sgIds + {o.choice}
              && id in u.sgs && OtherGroups(t, u, id, id, None, r.parent)
              && u.sgs[id].port == r.port.value && u.sgs[id].level == r.level.value
              && u.sgs[id].profile == r.profile.value && u.sgs[id].maxChild == r.maxChild.value
              && u.sgs[id].parent == r.parent.value && u.sgs[id].children == []
              && u.sgs[id].ndi == o.ndi && u.sgs[id].created
  {
    if IsFree(t.sgIds, SG_ID_MAX, o.choice) {
      GeneratedIdValues(o.choice);
    }
  }

  /** The set goes to the hardware: a backed group whose port, as requested or kept, is real. */
  predicate SgPushed(t: Tree, virt: set<nat>, id: NasId, r: SgRequest) {
    id in t.sgs && t.sgs[id].created && match r.port case Some(p) => p !in virt case None => t.sgs[id].port !in virt
  }

  /**
   The checks of the handler: the port known if given, no profile for a group at level 0 afterwards,
   never the number of children; and if the set is pushed, an accepting hardware and a known parent.
   */
  predicate SgSettable(t: Tree, virt: set<nat>, id: NasId, r: SgRequest, o: Outside) {
    && id in t.sgs
    && (r.port.Some? ==> o.portKnown)
    && r.maxChild.None? && !o.staleMaxChild
    && (r.profile.Some? || o.staleProfile ==> match r.level case Some(l) => l != 0 case None => t.sgs[id].level != 0)
    && (SgPushed(t, virt, id, r) ==>
          o.accepts && (Repushed(r.parent, o) ==> NextParentKnown(t, r.parent, t.sgs[id].parent)))
  }

  /** Port, level, profile and parent are as requested or kept; nothing else of the group changes. */
  ghost predicate SgTakes(r: SgRequest, was: SchedGroup, now: SchedGroup) {
    && Takes(r.port, was.port, now.port) && Takes(r.level, was.level, now.level)
    && Takes(r.profile, was.profile, now.profile) && Takes(r.parent, was.parent, now.parent)
    && now.maxChild == was.maxChild && now.children == was.children && now.ndi == was.ndi && now.created == was.created
  }

  /** One row overwritten, after c moved from one list to another: the rest is as it was but for the lists. */
  lemma Overwritten(t: Tree, u: Tree, id: NasId, from: NasId, to: NasId, now: SchedGroup)
    requires u.sgs == AddChild(DelChild(t.sgs, from, id), to, id)[id := now]
    ensures OtherGroups(t, u, id, id, Some(from), Some(to))
  {
    if from in t.sgs {
      WithoutIsRest(t.sgs[from].children, id);
    }
  }

  /** A stored SET, with the parent moved in the lists of the other groups only if it was pushed. */
  lemma SetSgTakesEffect(t: Tree, virt: set<nat>, id: NasId, r: SgRequest, o: Outside)
    ensures var u := SetSg(t, virt, id, r, o);
            if !SgSettable(t, virt, id, r, o) then u == t
            else
              && u.queues == t.queues && u.queueIds == t.queueIds && u.sgIds == t.sgIds
              && id in u.sgs && SgTakes(r, t.sgs[id], u.sgs[id])
              && if SgPushed(t, virt, id, r) && Repushed(r.parent, o) then
                   OtherGroups(t, u, id, id, Some(t.sgs[id].parent), Some(u.sgs[id].parent))
                 else OtherGroups(t, u, id, id, None, None)
  {
    var u := SetSg(t, virt, id, r, o);
    if SgSettable(t, virt, id, r, o) && SgPushed(t, virt, id, r) && Repushed(r.parent, o) {
      Overwritten(t, u, id, t.sgs[id].parent, u.sgs[id].parent, u.sgs[id]);
    }
  }

  predicate SgDeletable(t: Tree, id: NasId, o: Outside) {
    id in t.sgs && t.sgs[id].children == [] && o.accepts
  }

  /** A delete takes a childless group out; a packed id, which no generator gave, is not given back. */
  lemma DeleteSgTakesEffect(t: Tree, id: NasId, o: Outside)
    ensures var u := DeleteSg(t, id, o);
            if !SgDeletable(t, id, o) then u == t
            else
              && u.queues == t.queues && u.queueIds == t.queueIds && id !in u.sgs
              && u.sgIds == (if IsAutoFormed(id) then t.sgIds else t.sgIds - {SgRawOf(id)})
              && OtherGroups(t, u, id, id, Some(t.sgs[id].parent), None)
  {
    if id in t.sgs && t.sgs[id].parent in t.sgs {
      WithoutIsRest(t.sgs[t.sgs[id].parent].children, id);
    }
  }

  // ---- A whole port ----

  /** Deleting a port takes out exactly its rows, lists of others untouched, and gives back exactly their ids. */
  lemma DeletePortTakesEffect(t: Tree, port: nat)
    ensures var u := DeletePort(t, port);
            && (forall k :: (k in u.queues <==> k in t.queues && k.port != port)
                            && (k in u.queues ==> u.queues[k] == t.queues[k]))
            && (forall s :: (s in u.sgs <==> s in t.sgs && t.sgs[s].port != port)
                            && (s in u.sgs ==> u.sgs[s] == t.sgs[s]))
            && (forall raw :: raw in u.queueIds <==>
                  && raw in t.queueIds
                  && forall k :: k in t.queues && k.port == port ==> QueueRawOf(t.queues[k].id) != raw)
            && (forall raw :: raw in u.sgIds <==>
                  raw in t.sgIds && forall s :: s in t.sgs && t.sgs[s].port == port ==> SgRawOf(s) != raw)
  {}
}
