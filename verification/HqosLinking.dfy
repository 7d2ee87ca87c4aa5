/** Linking the nodes read back to the groups that own their hardware parents. */
module HqosLinking {
  import opened Wrappers
  import opened NasIds
  import opened IdGenerator
  import opened OrderedKeys
  import opened QosRows
  import opened QosSwitches
  import opened HqosForest
  import opened HqosSteps
  import opened HqosOperations
  import opened HqosIndex
  import opened HqosReadBack

  // ---- The rows read back are unlinked nodes of the forest ----

  /** An id a step may assign is a scheduler-group id: not null and no queue's. */
  lemma IdFollowsIsSgId(port: nat, hw: HwSg, low: nat, id: NasId, queues: QueueTable, queueIds: set<nat>)
    requires IdFollows(port, hw, low, id) && low <= DEFAULT_LOWEST_ID && port < 0x1_0000_0000 && hw.level < 256
    requires QueueIdsOk(queues, queueIds)
    ensures id != 0 && forall k :: k in queues ==> queues[k].id != id
  {
    if low == DEFAULT_LOWEST_ID {
      var raw: nat :| raw <= SG_ID_MAX && id == SgIdOf(raw);
      GeneratedIdTags(raw);
      GeneratedIdValues(raw);
    } else {
      FormedIdTags(port, hw.level, low);
      SgIdValue(port, hw.level, low);
    }
    forall k | k in queues ensures queues[k].id != id {
      GeneratedIdTags(QueueRawOf(queues[k].id));
    }
  }

  /** An id that is neither null nor a queue's. */
  ghost predicate SgIdOnly(queues: QueueTable, id: NasId) {
    id != 0 && forall k :: k in queues ==> queues[k].id != id
  }

  lemma TraceIdsAreSgIds(queues: QueueTable, queueIds: set<nat>, port: nat, tr: Trace, n: nat, i: nat)
    requires IsTrace(queues, port, tr, n) && i < n && SaneReport(queues, tr.tables[0], port, tr.groups)
    requires QueueIdsOk(queues, queueIds) && tr.ids[i].Some?
    ensures SgIdOnly(queues, tr.ids[i].value)
  {
    StepId(queues, port, tr, n, i);
    StepLow(queues, port, tr, n, i);
    IdFollowsIsSgId(port, tr.groups[i], tr.lows[i], tr.ids[i].value, queues, queueIds);
  }

  lemma StepLow(queues: QueueTable, port: nat, tr: Trace, n: nat, i: nat)
    requires IsTrace(queues, port, tr, n) && i < n && tr.ids[i].Some?
    ensures tr.lows[i] <= DEFAULT_LOWEST_ID
  {}

  /** Reading the groups back adds nodes without links, so the forest stays one. */
  lemma ReadBackKeepsLinked(t: Tree, virt: set<nat>, port: nat, tr: Trace, n: nat, ids: set<nat>)
    requires WellLinked(t, virt) && port !in virt && tr.tables != [] && tr.tables[0] == t.sgs
    requires IsTrace(t.queues, port, tr, n) && SaneReport(t.queues, t.sgs, port, tr.groups)
    requires SgIdsOk(tr.tables[n], ids)
    ensures WellLinked(t.(sgs := tr.tables[n], sgIds := ids), virt)
  {
    forall j | 0 <= j < n && tr.ids[j].Some? ensures SgIdOnly(t.queues, tr.ids[j].value) {
      TraceIdsAreSgIds(t.queues, t.queueIds, port, tr, n, j);
    }
    assert TablesGrow(port, tr, n);
    GrowthKeepsLinks(t, virt, port, tr, n, n);
    SameLinks(t.(sgs := tr.tables[n]), t.(sgs := tr.tables[n], sgIds := ids), virt);
  }

  lemma SameLinks(t: Tree, u: Tree, virt: set<nat>)
    requires Links(t) && OnRealPorts(t, virt) && u.queues == t.queues && u.sgs == t.sgs
    ensures Links(u) && OnRealPorts(u, virt)
  {}

  lemma {:induction false} GrowthKeepsLinks(t: Tree, virt: set<nat>, port: nat, tr: Trace, n: nat, i: nat)
    requires TablesGrow(port, tr, n) && i <= n && tr.tables[0] == t.sgs && port !in virt
    requires forall j :: 0 <= j < n && tr.ids[j].Some? ==> SgIdOnly(t.queues, tr.ids[j].value)
    requires Links(t) && OnRealPorts(t, virt)
    ensures Links(t.(sgs := tr.tables[i])) && OnRealPorts(t.(sgs := tr.tables[i]), virt)
  {
    if i == 0 {
      assert t.(sgs := tr.tables[0]) == t;
    } else {
      GrowthKeepsLinks(t, virt, port, tr, n, i - 1);
      var hw, id := tr.groups[i - 1], tr.ids[i - 1];
      assert Extends(port, hw, tr.tables[i - 1], id, tr.tables[i]);
      if id.Some? {
        UnlinkedGroup(t.(sgs := tr.tables[i - 1]), virt, id.value, FreshRow(port, hw), tr.tables[i]);
      }
    }
  }

  lemma UnlinkedGroup(t: Tree, virt: set<nat>, id: NasId, row: SchedGroup, after: SgTable)
    requires Links(t) && OnRealPorts(t, virt) && row.parent == 0 && row.created && row.children == []
             && row.port !in virt
    requires SgIdOnly(t.queues, id) && id !in t.sgs
    requires after == t.sgs[id := row]
    ensures Links(t.(sgs := after)) && OnRealPorts(t.(sgs := after), virt)
  {}

  // ---- Linking ----

  /** p owns the hardware id: the group with that id, or 0 when there is none. */
  ghost predicate Owns(sgs: SgTable, ndi: NdiId, p: NasId) {
    if p == 0 then forall s :: s in sgs ==> sgs[s].NdiObjId() != ndi
    else p in sgs && sgs[p].NdiObjId() == ndi
  }

  /** The parent the search finds: the first group on the walk with the hardware id, or 0. */
  function OwnerOf(sgs: SgTable, walk: seq<NasId>, ndi: NdiId): NasId {
    Given(FirstWith(sgs, walk, ndi), 0)
  }

  lemma OwnerOwns(sgs: SgTable, walk: seq<NasId>, ndi: NdiId)
    requires IsWalkOf(sgs.Keys, walk) && 0 !in sgs
    ensures Owns(sgs, ndi, OwnerOf(sgs, walk, ndi))
  {
    FirstWithFinds(sgs, walk, ndi);
  }

  /** The search finds the same group as long as no hardware id changes. */
  lemma {:induction false} SameFirst(sgs: SgTable, sgs': SgTable, walk: seq<NasId>, ndi: NdiId)
    requires sgs'.Keys == sgs.Keys && forall s :: s in sgs ==> sgs'[s].NdiObjId() == sgs[s].NdiObjId()
    ensures FirstWith(sgs', walk, ndi) == FirstWith(sgs, walk, ndi)
  {
    if walk != [] {
      SameFirst(sgs, sgs', walk[1..], ndi);
    }
  }

  /** A group whose recorded hardware parent is null is left a root exactly when every group is hardware-backed. */
  lemma NullParentIsRootIffAllBacked(queues: QueueTable, sgs: SgTable)
    requires HwIdsDistinct(queues, sgs)
    ensures Owns(sgs, NDI_NULL, 0) <==> forall s :: s in sgs ==> sgs[s].created
  {}

  lemma OwnerIsUnique(queues: QueueTable, sgs: SgTable, ndi: NdiId, p: NasId, q: NasId)
    requires HwIdsDistinct(queues, sgs) && 0 !in sgs && ndi != NDI_NULL && Owns(sgs, ndi, p) && Owns(sgs, ndi, q)
    ensures p == q
  {}

  lemma {:induction false} SomeWalk(keys: set<NasId>) returns (walk: seq<NasId>)
    ensures IsWalkOf(keys, walk)
  {
    walk := [];
    if s :| s in keys {
      var rest := SomeWalk(keys - {s});
      walk := [s] + rest;
    }
  }

  /** At most one group has no hardware id. */
  ghost predicate AtMostOneUnbacked(sgs: SgTable) {
    forall s, s' :: s in sgs && s' in sgs && !sgs[s].created && !sgs[s'].created ==> s == s'
  }

  /**
   The group found for a recorded hardware parent is the same in whatever order the table is walked,
   exactly when the id is not null or at most one group could match the null id.
   */
  lemma TableOrderIsIrrelevantExact(queues: QueueTable, sgs: SgTable, ndi: NdiId)
    requires HwIdsDistinct(queues, sgs) && 0 !in sgs
    ensures (forall walk, walk' :: IsWalkOf(sgs.Keys, walk) && IsWalkOf(sgs.Keys, walk') ==>
               OwnerOf(sgs, walk, ndi) == OwnerOf(sgs, walk', ndi)) <==> ndi != NDI_NULL || AtMostOneUnbacked(sgs)
  {
    if ndi != NDI_NULL || AtMostOneUnbacked(sgs) {
      forall walk, walk' | IsWalkOf(sgs.Keys, walk) && IsWalkOf(sgs.Keys, walk')
        ensures OwnerOf(sgs, walk, ndi) == OwnerOf(sgs, walk', ndi)
      {
        OwnerOwns(sgs, walk, ndi);
        OwnerOwns(sgs, walk', ndi);
        SameOwner(queues, sgs, ndi, OwnerOf(sgs, walk, ndi), OwnerOf(sgs, walk', ndi));
      }
    } else {
      var s, s' :| s in sgs && s' in sgs && !sgs[s].created && !sgs[s'].created && s != s';
      var rest := SomeWalk(sgs.Keys);
      assert IsWalkOf(sgs.Keys, [s] + rest) && IsWalkOf(sgs.Keys, [s'] + rest);
      assert OwnerOf(sgs, [s] + rest, ndi) == s && OwnerOf(sgs, [s'] + rest, ndi) == s';
    }
  }

  lemma SameOwner(queues: QueueTable, sgs: SgTable, ndi: NdiId, p: NasId, q: NasId)
    requires HwIdsDistinct(queues, sgs) && 0 !in sgs && (ndi != NDI_NULL || AtMostOneUnbacked(sgs))
    requires Owns(sgs, ndi, p) && Owns(sgs, ndi, q)
    ensures p == q
  {
    if ndi != NDI_NULL {
      OwnerIsUnique(queues, sgs, ndi, p, q);
    }
  }

  /** The nodes to be linked are hardware-backed, have no parent yet, and are not their own hardware parent. */
  ghost predicate Linkable(t: Tree, c: NasId, ndi: NdiId) {
    && (forall k :: k in t.queues && t.queues[k].id == c ==> t.queues[k].created && t.queues[k].parent == 0)
    && (c in t.sgs ==> t.sgs[c].created && t.sgs[c].parent == 0 && t.sgs[c].NdiObjId() != ndi)
  }

  /** Linking one queue or one group, as values. */
  ghost function LinkedQueue(t: Tree, key: Key, p: NasId): Tree
    requires key in t.queues
  {
    t.(queues := t.queues[key := t.queues[key].(parent := p)], sgs := AddChild(t.sgs, p, t.queues[key].id))
  }

  ghost function LinkedSg(t: Tree, id: NasId, p: NasId): Tree
    requires id in t.sgs
  {
    t.(sgs := AddChild(t.sgs[id := t.sgs[id].(parent := p)], p, id))
  }

  lemma LinkQueueKeeps(t: Tree, virt: set<nat>, key: Key, p: NasId)
    requires WellLinked(t, virt) && key in t.queues && t.queues[key].created && t.queues[key].parent == 0
             && Resolves(t.sgs, p)
    ensures WellLinked(LinkedQueue(t, key, p), virt)
  {
    var u := LinkedQueue(t, key, p);
    SetQueueLinks(t, key, p, u);
    RelinkShape(t.sgs, 0, p, t.queues[key].id);
    SameIdsOk(t, u);
  }

  lemma LinkSgKeeps(t: Tree, virt: set<nat>, id: NasId, p: NasId)
    requires WellLinked(t, virt) && id in t.sgs && t.sgs[id].created && t.sgs[id].parent == 0 && Resolves(t.sgs, p)
             && p != id
    ensures WellLinked(LinkedSg(t, id, p), virt)
  {
    var u := LinkedSg(t, id, p);
    LinkedSgShape(t, id, p);
    SetSgLinks(t, id, t.sgs[id].(parent := p), u);
    SameIdsOk(t, u);
  }

  lemma LinkedSgShape(t: Tree, id: NasId, p: NasId)
    requires 0 !in t.sgs && id in t.sgs && t.sgs[id].parent == 0 && p != id
    ensures var u, next := LinkedSg(t, id, p), t.sgs[id].(parent := p);
            && u.sgs == AddChild(DelChild(t.sgs, 0, id), p, id)[id := next]
            && u.sgs.Keys == t.sgs.Keys
            && (forall s :: s in t.sgs ==>
                  u.sgs[s].(parent := t.sgs[s].parent, children := t.sgs[s].children) == t.sgs[s])
            && (forall s :: s in t.sgs && s != id ==> u.sgs[s].parent == t.sgs[s].parent)
  {}

  // ---- The hierarchy walk ----

  /** One node linked by the walk: a queue by its key, or a scheduler group by its id. */
  datatype Link = QueueLink(key: Key, parent: NasId) | SgLink(id: NasId, parent: NasId)

  ghost function LinkOne(t: Tree, l: Link): Tree {
    match l
    case QueueLink(key, p) => if key in t.queues then LinkedQueue(t, key, p) else t
    case SgLink(id, p) => if id in t.sgs then LinkedSg(t, id, p) else t
  }

  ghost function LinkAll(t: Tree, links: seq<Link>): Tree {
    if links == [] then t else LinkOne(LinkAll(t, links[..|links| - 1]), links[|links| - 1])
  }

  ghost predicate IsLinkOf(t: Tree, l: Link, c: NasId) {
    match l
    case QueueLink(key, _) => key in t.queues && t.queues[key].id == c && IsQueueId(c)
    case SgLink(id, _) => id in t.sgs && id == c && !IsQueueId(c)
  }

  /** The links join distinct nodes of the parent map, each to the owner of its hardware parent. */
  ghost predicate Walked(t: Tree, walk: seq<NasId>, parents: map<NasId, NdiId>, order: seq<NasId>, links: seq<Link>) {
    && IsWalkOf(t.sgs.Keys, walk) && NoDup(order) && |links| == |order|
    && forall i :: 0 <= i < |order| ==>
         && order[i] in parents && IsLinkOf(t, links[i], order[i])
         && LeadsToOwner(t.sgs, walk, parents[order[i]], links[i].parent)
  }

  /** p is the group the search finds, and so one with that hardware id, or 0 if there is none. */
  ghost predicate LeadsToOwner(sgs: SgTable, walk: seq<NasId>, ndi: NdiId, p: NasId) {
    p == OwnerOf(sgs, walk, ndi) && Owns(sgs, ndi, p)
  }

  /** u has the rows of t, up to parents and child lists. */
  ghost predicate SameRows(t: Tree, u: Tree) {
    && u.queueIds == t.queueIds && u.sgIds == t.sgIds && u.queues.Keys == t.queues.Keys && u.sgs.Keys == t.sgs.Keys
    && (forall k :: k in t.queues ==> u.queues[k].(parent := t.queues[k].parent) == t.queues[k])
    && (forall s :: s in t.sgs ==> u.sgs[s].(parent := t.sgs[s].parent, children := t.sgs[s].children) == t.sgs[s])
  }

  lemma LinkOneRows(t: Tree, l: Link)
    requires 0 !in t.sgs && (l.SgLink? ==> l.parent != l.id)
    ensures SameRows(t, LinkOne(t, l))
  {}

  /** Where a link leads: it sets its own node's parent and no other's. */
  lemma LinkOneParents(t: Tree, l: Link)
    requires 0 !in t.sgs && (l.SgLink? ==> l.parent != l.id)
    ensures var u := LinkOne(t, l);
            && (forall k :: k in t.queues && k in u.queues ==>
                  u.queues[k].parent == if l.QueueLink? && l.key == k then l.parent else t.queues[k].parent)
            && (forall s :: s in t.sgs && s in u.sgs ==>
                  u.sgs[s].parent == if l.SgLink? && l.id == s then l.parent else t.sgs[s].parent)
  {}

  lemma RowsTransitive(t: Tree, u: Tree, v: Tree)
    requires SameRows(t, u) && SameRows(u, v)
    ensures SameRows(t, v)
  {}

  /** No group in the walk is its own hardware parent. */
  ghost predicate NoOwnParent(links: seq<Link>) {
    forall i :: 0 <= i < |links| && links[i].SgLink? ==> links[i].parent != links[i].id
  }

  lemma {:induction false} LinkAllRows(t: Tree, links: seq<Link>)
    requires 0 !in t.sgs && NoOwnParent(links)
    ensures SameRows(t, LinkAll(t, links))
  {
    if links != [] {
      var front := links[..|links| - 1];
      LinkAllRows(t, front);
      LinkOneRows(LinkAll(t, front), links[|links| - 1]);
      RowsTransitive(t, LinkAll(t, front), LinkAll(t, links));
    }
  }

  /** After the walk each node's parent is where its link leads; nodes outside the walk keep theirs. */
  ghost predicate ParentsFollow(t: Tree, u: Tree, links: seq<Link>) {
    && (forall i :: 0 <= i < |links| ==> match links[i]
          case QueueLink(key, p) => key in u.queues && u.queues[key].parent == p
          case SgLink(id, p) => id in u.sgs && u.sgs[id].parent == p)
    && (forall k :: k in t.queues && k in u.queues
                    && (forall i :: 0 <= i < |links| ==> links[i] != QueueLink(k, links[i].parent)) ==>
          u.queues[k].parent == t.queues[k].parent)
    && (forall s :: s in t.sgs && s in u.sgs
                    && (forall i :: 0 <= i < |links| ==> links[i] != SgLink(s, links[i].parent)) ==>
          u.sgs[s].parent == t.sgs[s].parent)
  }

  ghost predicate DistinctNodes(t: Tree, links: seq<Link>) {
    && (forall i :: 0 <= i < |links| ==> if links[i].QueueLink? then links[i].key in t.queues else links[i].id in t.sgs)
    && (forall i, j :: 0 <= i < j < |links| && links[i].QueueLink? && links[j].QueueLink? ==>
          links[i].key != links[j].key)
    && (forall i, j :: 0 <= i < j < |links| && links[i].SgLink? && links[j].SgLink? ==> links[i].id != links[j].id)
  }

  lemma {:induction false} LinkAllParents(t: Tree, links: seq<Link>)
    requires 0 !in t.sgs && NoOwnParent(links) && DistinctNodes(t, links)
    ensures ParentsFollow(t, LinkAll(t, links), links)
  {
    if links != [] {
      FrontIsDistinct(t, links);
      LinkAllParents(t, links[..|links| - 1]);
      LinkParentsStep(t, links);
    }
  }

  lemma FrontIsDistinct(t: Tree, links: seq<Link>)
    requires links != [] && NoOwnParent(links) && DistinctNodes(t, links)
    ensures NoOwnParent(links[..|links| - 1]) && DistinctNodes(t, links[..|links| - 1])
  {
    var front := links[..|links| - 1];
    assert forall i :: 0 <= i < |front| ==> front[i] == links[i];
  }

  lemma LinkParentsStep(t: Tree, links: seq<Link>)
    requires 0 !in t.sgs && links != [] && NoOwnParent(links) && DistinctNodes(t, links)
    requires ParentsFollow(t, LinkAll(t, links[..|links| - 1]), links[..|links| - 1])
    ensures ParentsFollow(t, LinkAll(t, links), links)
  {
    var front, last := links[..|links| - 1], links[|links| - 1];
    var mid := LinkAll(t, front);
    FrontIsDistinct(t, links);
    LinkAllRows(t, front);
    LinkOneRows(mid, last);
    LinkOneParents(mid, last);
    assert front + [last] == links;
    LinkStepFollows(t, mid, LinkOne(mid, last), front, last);
  }

  lemma LinkStepFollows(t: Tree, mid: Tree, u: Tree, front: seq<Link>, last: Link)
    requires ParentsFollow(t, mid, front) && SameRows(t, mid) && SameRows(mid, u) && DistinctNodes(t, front + [last])
    requires forall k :: k in mid.queues ==>
               u.queues[k].parent == if last.QueueLink? && last.key == k then last.parent else mid.queues[k].parent
    requires forall s :: s in mid.sgs ==>
               u.sgs[s].parent == if last.SgLink? && last.id == s then last.parent else mid.sgs[s].parent
    ensures ParentsFollow(t, u, front + [last])
  {
    var links := front + [last];
    assert links[|front|] == last;
    forall i | 0 <= i < |links|
      ensures match links[i]
              case QueueLink(key, p) => key in u.queues && u.queues[key].parent == p
              case SgLink(id, p) => id in u.sgs && u.sgs[id].parent == p
    {
      if i < |front| {
        assert links[i] == front[i];
      }
    }
    forall k | k in t.queues && (forall i :: 0 <= i < |links| ==> links[i] != QueueLink(k, links[i].parent))
      ensures u.queues[k].parent == t.queues[k].parent
    {
      assert forall i :: 0 <= i < |front| ==> front[i] == links[i];
    }
    forall s | s in t.sgs && (forall i :: 0 <= i < |links| ==> links[i] != SgLink(s, links[i].parent))
      ensures u.sgs[s].parent == t.sgs[s].parent
    {
      assert forall i :: 0 <= i < |front| ==> front[i] == links[i];
    }
  }

  lemma WalkedFacts(t: Tree, walk: seq<NasId>, parents: map<NasId, NdiId>, order: seq<NasId>, links: seq<Link>)
    requires Walked(t, walk, parents, order, links) && IdsDistinct(t)
    requires forall c :: c in parents ==> Linkable(t, c, parents[c])
    ensures NoOwnParent(links) && DistinctNodes(t, links)
  {}

  /** The link's node is hardware-backed and unlinked, and its new parent exists and is another node. */
  ghost predicate Ready(t: Tree, l: Link) {
    match l
    case QueueLink(key, p) =>
      key in t.queues && t.queues[key].created && t.queues[key].parent == 0 && Resolves(t.sgs, p)
    case SgLink(id, p) => id in t.sgs && t.sgs[id].created && t.sgs[id].parent == 0 && Resolves(t.sgs, p) && p != id
  }

  ghost predicate AllReady(t: Tree, links: seq<Link>) {
    forall i :: 0 <= i < |links| ==> Ready(t, links[i])
  }

  lemma WalkedIsReady(t: Tree, walk: seq<NasId>, parents: map<NasId, NdiId>, order: seq<NasId>, links: seq<Link>)
    requires Walked(t, walk, parents, order, links) && IdsDistinct(t)
    requires forall c :: c in parents ==> Linkable(t, c, parents[c])
    ensures AllReady(t, links)
  {}

  /** The walk keeps the links exact inverses, node by node. */
  lemma {:induction false} LinkAllKeeps(t: Tree, virt: set<nat>, links: seq<Link>)
    requires WellLinked(t, virt) && AllReady(t, links) && DistinctNodes(t, links)
    ensures WellLinked(LinkAll(t, links), virt)
    decreases |links|
  {
    if links != [] {
      FrontIsReady(t, links);
      LinkAllKeeps(t, virt, links[..|links| - 1]);
      LinkStepKeeps(t, virt, links);
    }
  }

  lemma FrontIsReady(t: Tree, links: seq<Link>)
    requires links != [] && AllReady(t, links) && DistinctNodes(t, links)
    ensures AllReady(t, links[..|links| - 1]) && DistinctNodes(t, links[..|links| - 1])
  {
    var front := links[..|links| - 1];
    assert forall i :: 0 <= i < |front| ==> front[i] == links[i];
  }

  lemma LinkStepKeeps(t: Tree, virt: set<nat>, links: seq<Link>)
    requires 0 !in t.sgs && links != [] && AllReady(t, links) && DistinctNodes(t, links)
    requires WellLinked(LinkAll(t, links[..|links| - 1]), virt)
    ensures WellLinked(LinkAll(t, links), virt)
  {
    var front, last := links[..|links| - 1], links[|links| - 1];
    FrontIsReady(t, links);
    assert front + [last] == links;
    StillReady(t, front, last);
    LinkOneKeeps(LinkAll(t, front), virt, last);
  }

  lemma LinkOneKeeps(t: Tree, virt: set<nat>, l: Link)
    requires WellLinked(t, virt) && Ready(t, l)
    ensures WellLinked(LinkOne(t, l), virt)
  {
    match l {
      case QueueLink(key, p) => LinkQueueKeeps(t, virt, key, p);
      case SgLink(id, p) => LinkSgKeeps(t, virt, id, p);
    }
  }

  lemma StillReady(t: Tree, front: seq<Link>, last: Link)
    requires 0 !in t.sgs && AllReady(t, front) && Ready(t, last) && DistinctNodes(t, front + [last])
    ensures Ready(LinkAll(t, front), last)
  {
    forall i | 0 <= i < |front| ensures front[i].SgLink? ==> front[i].parent != front[i].id {
      assert Ready(t, front[i]);
    }
    assert DistinctNodes(t, front) by {
      assert forall i :: 0 <= i < |front| ==> (front + [last])[i] == front[i];
    }
    LinkAllRows(t, front);
    LinkAllParents(t, front);
    LastUnlinked(t, LinkAll(t, front), front, last);
  }

  /** The node linked last still had its own parent just before. */
  lemma LastUnlinked(t: Tree, mid: Tree, front: seq<Link>, last: Link)
    requires DistinctNodes(t, front + [last]) && ParentsFollow(t, mid, front) && SameRows(t, mid)
    ensures match last
            case QueueLink(key, _) =>
              && key in mid.queues && mid.queues[key].parent == t.queues[key].parent
              && mid.queues[key].created == t.queues[key].created
            case SgLink(id, _) =>
              id in mid.sgs && mid.sgs[id].parent == t.sgs[id].parent && mid.sgs[id].created == t.sgs[id].created
  {
    var links := front + [last];
    assert links[|front|] == last;
    match last {
      case QueueLink(key, _) =>
        assert mid.queues[key].(parent := t.queues[key].parent) == t.queues[key];
        forall i | 0 <= i < |front| ensures front[i] != QueueLink(key, front[i].parent) {
          assert links[i] == front[i];
        }
      case SgLink(id, _) =>
        assert mid.sgs[id].(parent := t.sgs[id].parent, children := t.sgs[id].children) == t.sgs[id];
        forall i | 0 <= i < |front| ensures front[i] != SgLink(id, front[i].parent) {
          assert links[i] == front[i];
        }
    }
  }

  /** get_queue by NAS id */
  method QueueById(sw: QosSwitch, id: NasId) returns (r: Option<Key>)
    ensures r.Some? ==> r.value in sw.queues && sw.queues[r.value].id == id
    ensures r.None? ==> forall k :: k in sw.queues ==> sw.queues[k].id != id
  {
    var order := Iterate(sw.queues.Keys);
    var i := 0;
    while i < |order|
      invariant 0 <= i <= |order|
      invariant forall j :: 0 <= j < i ==> sw.queues[order[j]].id != id
    {
      assert order[i] in order;
      if sw.queues[order[i]].id == id {
        return Some(order[i]);
      }
      i := i + 1;
    }
    r := None;
  }

  /** Neither a queue nor a group of the tree has this id. */
  ghost predicate Missing(t: Tree, c: NasId) {
    if IsQueueId(c) then forall k :: k in t.queues ==> t.queues[k].id != c else c !in t.sgs
  }

  /** One node of the walk: the body of the loop of setup_scheduler_group_hierarchy. */
  method LinkNode(sw: QosSwitch, walk: seq<NasId>, c: NasId, ndi: NdiId) returns (rc: bool, ghost l: Link)
    requires 0 !in sw.sgs && IsWalkOf(sw.sgs.Keys, walk)
    modifies sw`queues, sw`sgs
    ensures rc ==> IsLinkOf(old(TreeOf(sw)), l, c) && LeadsToOwner(old(sw.sgs), walk, ndi, l.parent)
    ensures rc ==> TreeOf(sw) == LinkOne(old(TreeOf(sw)), l)
    ensures !rc ==> TreeOf(sw) == old(TreeOf(sw))
    ensures !rc ==> Missing(TreeOf(sw), c)
  {
    var owner := SgByHwId(sw, walk, ndi);
    OwnerOwns(sw.sgs, walk, ndi);
    FirstWithFinds(sw.sgs, walk, ndi);
    var parent := Given(owner, 0);
    if IsQueueId(c) {
      var key := QueueById(sw, c);
      if key.None? {
        return false, SgLink(0, 0);
      }
      l := QueueLink(key.value, parent);
      sw.queues := sw.queues[key.value := sw.queues[key.value].(parent := parent)];
    } else {
      if c !in sw.sgs {
        return false, SgLink(0, 0);
      }
      l := SgLink(c, parent);
      sw.sgs := sw.sgs[c := sw.sgs[c].(parent := parent)];
    }
    if owner.Some? {
      NotifyParentChildChange(sw, parent, c, true);
    }
    rc := true;
  }

  /**
   setup_scheduler_group_hierarchy, whatever order the unordered parent map is walked in: the links
   made join distinct listed nodes to the groups owning their recorded hardware parents, and the walk
   covers the whole map unless a listed node is missing.
   */
  method SetupHierarchy(sw: QosSwitch, parents: map<NasId, NdiId>)
    returns (rc: bool, ghost walk: seq<NasId>, ghost order: seq<NasId>, ghost links: seq<Link>)
    requires IdsDistinct(TreeOf(sw))
    requires forall c :: c in parents ==> Linkable(TreeOf(sw), c, parents[c])
    modifies sw`queues, sw`sgs
    ensures Walked(old(TreeOf(sw)), walk, parents, order, links)
    ensures TreeOf(sw) == LinkAll(old(TreeOf(sw)), links)
    ensures rc ==> forall c :: c in parents <==> c in order
    ensures !rc ==> exists c :: c in parents && Missing(old(TreeOf(sw)), c)
  {
    ghost var t := TreeOf(sw);
    var todo := parents.Keys;
    var table := TableWalk(sw.sgs.Keys);
    walk, order, links := table, [], [];
    while todo != {}
      invariant walk == table
      invariant todo <= parents.Keys && forall c :: c in order <==> c in parents && c !in todo
      invariant Walked(t, walk, parents, order, links)
      invariant TreeOf(sw) == LinkAll(t, links)
    {
      var c :| c in todo;
      WalkedFacts(t, walk, parents, order, links);
      LinkAllRows(t, links);
      ghost var l;
      rc, l := LinkNode(sw, table, c, parents[c]);
      if !rc {
        MissingNode(t, LinkAll(t, links), c);
        return;
      }
      LinkInBase(t, LinkAll(t, links), walk, l, c, parents[c]);
      ExtendWalk(t, walk, parents, order, links, c, l);
      todo, order, links := todo - {c}, order + [c], links + [l];
    }
    rc := true;
  }

  lemma MissingNode(t: Tree, u: Tree, c: NasId)
    requires SameRows(t, u)
    requires Missing(u, c)
    ensures Missing(t, c)
  {}

  lemma LinkInBase(t: Tree, u: Tree, walk: seq<NasId>, l: Link, c: NasId, ndi: NdiId)
    requires SameRows(t, u) && IsLinkOf(u, l, c) && LeadsToOwner(u.sgs, walk, ndi, l.parent)
    ensures IsLinkOf(t, l, c) && LeadsToOwner(t.sgs, walk, ndi, l.parent)
  {
    SameRowsSameOwner(t, u, walk, ndi);
  }

  lemma SameRowsSameOwner(t: Tree, u: Tree, walk: seq<NasId>, ndi: NdiId)
    requires SameRows(t, u)
    ensures OwnerOf(u.sgs, walk, ndi) == OwnerOf(t.sgs, walk, ndi)
    ensures forall p :: Owns(u.sgs, ndi, p) <==> Owns(t.sgs, ndi, p)
  {
    forall s | s in t.sgs ensures u.sgs[s].NdiObjId() == t.sgs[s].NdiObjId() {
      assert u.sgs[s].(parent := t.sgs[s].parent, children := t.sgs[s].children) == t.sgs[s];
    }
    SameFirst(t.sgs, u.sgs, walk, ndi);
  }

  lemma ExtendWalk(t: Tree, walk: seq<NasId>, parents: map<NasId, NdiId>, order: seq<NasId>, links: seq<Link>,
                   c: NasId, l: Link)
    requires Walked(t, walk, parents, order, links) && c in parents && c !in order
    requires IsLinkOf(t, l, c) && LeadsToOwner(t.sgs, walk, parents[c], l.parent)
    ensures Walked(t, walk, parents, order + [c], links + [l])
    ensures LinkAll(t, links + [l]) == LinkOne(LinkAll(t, links), l)
  {}

  // ---- What the walk leads to ----

  /**
   u is t with each walked node's parent set to the group that owns its recorded hardware parent, or
   0, and every other node's parent as it was.
   */
  ghost predicate Exact(t: Tree, u: Tree, walk: seq<NasId>, parents: map<NasId, NdiId>, order: seq<NasId>)
    requires forall c :: c in order ==> c in parents
  {
    && SameRows(t, u)
    && (forall k :: k in t.queues ==>
          if t.queues[k].id in order then LeadsToOwner(t.sgs, walk, parents[t.queues[k].id], u.queues[k].parent)
          else u.queues[k].parent == t.queues[k].parent)
    && (forall s :: s in t.sgs ==>
          if s in order && !IsQueueId(s) then LeadsToOwner(t.sgs, walk, parents[s], u.sgs[s].parent)
          else s !in order ==> u.sgs[s].parent == t.sgs[s].parent)
  }

  lemma OrderInParents(t: Tree, walk: seq<NasId>, parents: map<NasId, NdiId>, order: seq<NasId>, links: seq<Link>)
    requires Walked(t, walk, parents, order, links)
    ensures forall c :: c in order ==> c in parents
  {}

  /** After the walk the parents are exact, and the child lists hold exactly the nodes naming their owner. */
  lemma HierarchyIsExact(t: Tree, virt: set<nat>, walk: seq<NasId>, parents: map<NasId, NdiId>, order: seq<NasId>,
                         links: seq<Link>)
    requires WellLinked(t, virt) && Walked(t, walk, parents, order, links)
    requires forall c :: c in parents ==> Linkable(t, c, parents[c])
    requires forall c :: c in order ==> c in parents
    ensures WellLinked(LinkAll(t, links), virt) && Exact(t, LinkAll(t, links), walk, parents, order)
  {
    var u := LinkAll(t, links);
    WalkedFacts(t, walk, parents, order, links);
    WalkedIsReady(t, walk, parents, order, links);
    LinkAllKeeps(t, virt, links);
    LinkAllRows(t, links);
    LinkAllParents(t, links);
    forall k | k in t.queues && t.queues[k].id in order
      ensures LeadsToOwner(t.sgs, walk, parents[t.queues[k].id], u.queues[k].parent) {
      var i :| 0 <= i < |order| && order[i] == t.queues[k].id;
      assert IsLinkOf(t, links[i], order[i]);
    }
    forall s | s in t.sgs && s in order && !IsQueueId(s)
      ensures LeadsToOwner(t.sgs, walk, parents[s], u.sgs[s].parent) {
      var i :| 0 <= i < |order| && order[i] == s;
      assert IsLinkOf(t, links[i], order[i]);
    }
    forall k, i | k in t.queues && t.queues[k].id !in order && 0 <= i < |links|
      ensures links[i] != QueueLink(k, links[i].parent) {
      assert IsLinkOf(t, links[i], order[i]);
    }
    forall s, i | s in t.sgs && s !in order && 0 <= i < |links| ensures links[i] != SgLink(s, links[i].parent) {
      assert IsLinkOf(t, links[i], order[i]);
    }
  }

  /** The same rows, with child lists that are permutations of each other. */
  ghost predicate SameUpToListOrder(u: Tree, v: Tree) {
    && u.queues == v.queues && u.sgs.Keys == v.sgs.Keys
    && (forall s :: s in u.sgs ==> u.sgs[s].(children := v.sgs[s].children) == v.sgs[s])
    && (forall s :: s in u.sgs ==> multiset(u.sgs[s].children) == multiset(v.sgs[s].children))
  }

  /**
   The order in which the parent map is walked does not matter: two complete walks from one tree,
   searching the group table in one order, lead to the same tree up to the order within child lists.
   */
  lemma WalkOrderIsIrrelevant(t: Tree, virt: set<nat>, walk: seq<NasId>, parents: map<NasId, NdiId>,
                              order: seq<NasId>, links: seq<Link>, order': seq<NasId>, links': seq<Link>)
    requires WellLinked(t, virt)
    requires forall c :: c in parents ==> Linkable(t, c, parents[c])
    requires Walked(t, walk, parents, order, links) && Walked(t, walk, parents, order', links')
    requires forall c :: c in order <==> c in order'
    ensures SameUpToListOrder(LinkAll(t, links), LinkAll(t, links'))
  {
    OrderInParents(t, walk, parents, order, links);
    OrderInParents(t, walk, parents, order', links');
    HierarchyIsExact(t, virt, walk, parents, order, links);
    HierarchyIsExact(t, virt, walk, parents, order', links');
    forall s | s in t.sgs ensures !IsQueueId(s) {
      SgIdIsNoQueueId(t, s);
    }
    ExactIsUnique(t, LinkAll(t, links), LinkAll(t, links'), walk, parents, order, order');
    SameListsUpToOrder(LinkAll(t, links), LinkAll(t, links'));
  }

  lemma ExactIsUnique(t: Tree, u: Tree, v: Tree, walk: seq<NasId>, parents: map<NasId, NdiId>, order: seq<NasId>,
                      order': seq<NasId>)
    requires forall s :: s in t.sgs ==> !IsQueueId(s)
    requires forall c :: c in order ==> c in parents
    requires forall c :: c in order <==> c in order'
    requires Exact(t, u, walk, parents, order) && Exact(t, v, walk, parents, order')
    ensures u.queues == v.queues && u.sgs.Keys == v.sgs.Keys
    ensures forall s :: s in u.sgs ==> u.sgs[s].(children := v.sgs[s].children) == v.sgs[s]
  {
    forall k | k in t.queues ensures u.queues[k] == v.queues[k] {
      assert u.queues[k].(parent := t.queues[k].parent) == t.queues[k] == v.queues[k].(parent := t.queues[k].parent);
    }
    assert u.queues == v.queues;
    forall s | s in t.sgs ensures u.sgs[s].(children := v.sgs[s].children) == v.sgs[s] {
      var prior := t.sgs[s];
      assert u.sgs[s].(parent := prior.parent, children := prior.children) == prior;
      assert v.sgs[s].(parent := prior.parent, children := prior.children) == prior;
    }
  }
}
