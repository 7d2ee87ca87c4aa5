/**
 Small forests and the operations that lead out of them: each exact condition does fail somewhere. The
 ids are packed, or follow from generator values a and b, whatever these are.
 */
module HqosWitnesses {
  import opened Wrappers
  import opened NasIds
  import opened IdGenerator
  import opened OrderedKeys
  import opened QosRows
  import opened QosSwitches
  import opened HqosForest
  import opened HqosSteps
  import opened HqosAcyclic
  import opened HqosIndex
  import opened HqosLinking
  import opened HqosVirtual
  import opened HqosBinding
  import opened HqosSound
  import opened HqosReachable
  import VpQueues

  /** The one virtual port of all witnesses. */
  const VIRT: set<nat> := {7}

  /** Accepted by the hardware, which returns id 9; the generator picks 1; no attribute is stale. */
  const ACCEPTED: Outside := Outside(true, 9, 1, true, false, false, false)

  function ParentRequest(parent: NasId): SgRequest { SgRequest(None, None, None, None, Some(parent)) }

  function PortRequest(port: nat): SgRequest { SgRequest(Some(port), None, None, None, None) }

  /** A hardware-backed group of level 1. */
  function Backed(port: nat, parent: NasId, children: seq<NasId>, ndi: NdiId): SchedGroup {
    SchedGroup(port, 1, 0, 8, parent, children, ndi, true)
  }

  /** What the witnesses need of an id made from a generator value. */
  lemma GeneratedGroup(raw: nat)
    requires raw <= SG_ID_MAX
    ensures SgIdOf(raw) != 0 && !Formed(SgIdOf(raw)) && SgIdOf(raw) != QueueIdOf(raw)
  {
    GeneratedIdValues(raw);
    GeneratedIsNotFormed(raw);
  }

  lemma Assembled(t: Tree)
    requires Links(t) && OnRealPorts(t, VIRT) && TreeIdsOk(t)
    requires Rooted(t.sgs) && SgsAtHome(t.sgs) && HwIdsDistinct(t.queues, t.sgs)
    ensures Forest(t, VIRT)
  {}

  /** No group id is packed, so none can be away from its port. */
  lemma NoneFormed(sgs: map<NasId, SchedGroup>)
    requires forall s :: s in sgs ==> !Formed(s)
    ensures SgsAtHome(sgs)
  {}

  lemma OneSgId(sgs: map<NasId, SchedGroup>, raw: nat)
    requires raw <= SG_ID_MAX && sgs.Keys == {SgIdOf(raw)}
    ensures SgIdsOk(sgs, {raw})
  {
    ReleaseInvertsAlloc(raw);
    assert SgIdsOk(map[], {});
    AddedSgIdsOk(map[], {}, raw, sgs);
    assert {} + {raw} == {raw};
  }

  lemma TwoSgIds(sgs: map<NasId, SchedGroup>, a: nat, b: nat)
    requires a <= SG_ID_MAX && b <= SG_ID_MAX && sgs.Keys == {SgIdOf(a), SgIdOf(b)}
    ensures SgIdsOk(sgs, {a, b})
  {
    ReleaseInvertsAlloc(b);
    var one := map[SgIdOf(a) := Backed(0, 0, [], 0)];
    OneSgId(one, a);
    AddedSgIdsOk(one, {a}, b, sgs);
    assert {a} + {b} == {a, b};
  }

  lemma OneQueueId(key: Key, row: Queue, raw: nat)
    requires 0 < raw <= QUEUE_ID_MAX && row.id == QueueIdOf(raw)
    ensures QueueIdsOk(map[key := row], {raw})
  {
    assert QueueIdsOk(map[], {});
    NewQueueKeepsIds(map[], {}, key, row, raw);
    assert map[][key := row] == map[key := row] && {} + {raw} == {raw};
  }

  lemma NoQueueIds()
    ensures QueueIdsOk(map[], {})
  {}

  /** Packed ids name no generator value. */
  lemma AllPacked(sgs: map<NasId, SchedGroup>)
    requires forall s :: s in sgs ==> Formed(s) && SgPort(s) == sgs[s].port
    ensures SgIdsOk(sgs, {}) && SgsAtHome(sgs)
  {}

  // ---- One group ----

  function Lone(g: NasId, ids: set<nat>): Tree {
    Tree(map[], map[g := Backed(1, 0, [], 5)], {}, ids)
  }

  lemma LoneLinks(t: Tree, g: NasId, ids: set<nat>)
    requires t == Lone(g, ids) && g != 0
    ensures Links(t) && OnRealPorts(t, VIRT) && Rooted(t.sgs) && HwIdsDistinct(t.queues, t.sgs)
  {
    assert forall c, p :: !QueueChild(t, c, p);
    assert Up(t.sgs, g, 1) == 0;
  }

  lemma LoneIsForest(a: nat)
    requires a <= SG_ID_MAX
    ensures Forest(Lone(SgIdOf(a), {a}), VIRT)
  {
    var g := SgIdOf(a);
    GeneratedGroup(a);
    LoneLinks(Lone(g, {a}), g, {a});
    OneSgId(Lone(g, {a}).sgs, a);
    NoQueueIds();
    NoneFormed(Lone(g, {a}).sgs);
    Assembled(Lone(g, {a}));
  }

  /** A hardware-backed group set to a virtual port. */
  lemma SetToVirtualPortWitness(a: nat)
    requires a <= SG_ID_MAX
    ensures var t, g := Lone(SgIdOf(a), {a}), SgIdOf(a);
            Forest(t, VIRT) && !Forest(SetSg(t, VIRT, g, PortRequest(7), ACCEPTED), VIRT)
  {
    LoneIsForest(a);
    MovedToVirtual(Lone(SgIdOf(a), {a}), SgIdOf(a), {a});
  }

  lemma MovedToVirtual(t: Tree, g: NasId, ids: set<nat>)
    requires t == Lone(g, ids) && Forest(t, VIRT)
    ensures !Forest(SetSg(t, VIRT, g, PortRequest(7), ACCEPTED), VIRT)
  {
    var u := SetSg(t, VIRT, g, PortRequest(7), ACCEPTED);
    assert u.sgs[g].created && u.sgs[g].port in VIRT;
  }

  /** A queue created on a virtual port: its row is hardware-backed, and later sets of it edit no list. */
  lemma CreateOnVirtualPortWitness()
    ensures var u := CreateQueue(EMPTY_TREE, Key(7, 0, UCAST), Some(0), ACCEPTED);
            Forest(EMPTY_TREE, VIRT) && u != EMPTY_TREE && !Forest(u, VIRT)
  {
    EmptyTreeIsForest(VIRT);
    CreateQueueKeepsForestExact(EMPTY_TREE, VIRT, Key(7, 0, UCAST), Some(0), ACCEPTED);
  }

  /** A packed id whose group is set to another port: afterwards the port in the id is not the group's. */
  lemma PackedIdMovesWitness(level: nat, index: nat)
    requires level < 256 && index < 0x1_0000
    ensures var g := FormatSgId(1, level, index);
            && Forest(Lone(g, {}), VIRT) && SgPort(g) == 1
            && !Forest(SetSg(Lone(g, {}), VIRT, g, PortRequest(2), ACCEPTED), VIRT)
  {
    var g := FormatSgId(1, level, index);
    SgIdRoundTrip(1, level, index);
    SgIdValue(1, level, index);
    LoneLinks(Lone(g, {}), g, {});
    AllPacked(Lone(g, {}).sgs);
    NoQueueIds();
    Assembled(Lone(g, {}));
    PackedMoves(Lone(g, {}), g);
  }

  lemma PackedMoves(t: Tree, g: NasId)
    requires t == Lone(g, {}) && Forest(t, VIRT) && Formed(g) && SgPort(g) == 1
    ensures !Forest(SetSg(t, VIRT, g, PortRequest(2), ACCEPTED), VIRT)
  {
    SetSgKeepsForestExact(t, VIRT, g, PortRequest(2), ACCEPTED);
  }

  // ---- A group below a group ----

  function Chain(top: NasId, low: NasId, ids: set<nat>): Tree {
    Tree(map[], map[top := Backed(1, 0, [low], 5), low := Backed(1, top, [], 6)], {}, ids)
  }

  lemma ChainLinks(t: Tree, top: NasId, low: NasId, ids: set<nat>)
    requires t == Chain(top, low, ids) && top != low && top != 0 && low != 0
    ensures Links(t) && OnRealPorts(t, VIRT) && HwIdsDistinct(t.queues, t.sgs)
    ensures Rooted(t.sgs) && AtOrBelow(t.sgs, low, top)
  {
    assert forall c, p :: !QueueChild(t, c, p);
    assert ListOk(t, top) && ListOk(t, low);
    assert ParentOf(t.sgs, top) == 0 && ParentOf(t.sgs, low) == top;
    assert Up(t.sgs, top, 1) == 0;
    assert Up(t.sgs, low, 1) == top;
    UpStep(t.sgs, low, 1);
  }

  lemma ChainIsForest(a: nat, b: nat)
    requires a <= SG_ID_MAX && b <= SG_ID_MAX && SgIdOf(a) != SgIdOf(b)
    ensures var t := Chain(SgIdOf(a), SgIdOf(b), {a, b});
            Forest(t, VIRT) && AtOrBelow(t.sgs, SgIdOf(b), SgIdOf(a))
  {
    var t := Chain(SgIdOf(a), SgIdOf(b), {a, b});
    GeneratedGroup(a);
    GeneratedGroup(b);
    ChainLinks(t, SgIdOf(a), SgIdOf(b), {a, b});
    ChainIds(t, a, b);
    Assembled(t);
  }

  lemma ChainIds(t: Tree, a: nat, b: nat)
    requires a <= SG_ID_MAX && b <= SG_ID_MAX && t.queues == map[] && t.queueIds == {} && t.sgIds == {a, b}
    requires t.sgs.Keys == {SgIdOf(a), SgIdOf(b)} && !Formed(SgIdOf(a)) && !Formed(SgIdOf(b))
    ensures TreeIdsOk(t) && SgsAtHome(t.sgs)
  {
    TwoSgIds(t.sgs, a, b);
    NoQueueIds();
    NoneFormed(t.sgs);
  }

  /** A group set below its own child: the lists match, but neither group is under a root any more. */
  lemma SetBelowDescendantWitness(a: nat, b: nat)
    requires a <= SG_ID_MAX && b <= SG_ID_MAX && a != b
    ensures var t := Chain(SgIdOf(a), SgIdOf(b), {a, b});
            var u := SetSg(t, VIRT, SgIdOf(a), ParentRequest(SgIdOf(b)), ACCEPTED);
            Forest(t, VIRT) && WellLinked(u, VIRT) && !Rooted(u.sgs)
  {
    GeneratedGroup(b);
    TwoIdsDiffer(a, b);
    ChainIsForest(a, b);
    CircleCloses(Chain(SgIdOf(a), SgIdOf(b), {a, b}), SgIdOf(a), SgIdOf(b), {a, b});
  }

  lemma TwoIdsDiffer(a: nat, b: nat)
    requires a <= SG_ID_MAX && b <= SG_ID_MAX && a != b
    ensures SgIdOf(a) != SgIdOf(b)
  {
    GeneratedIdValues(a);
    GeneratedIdValues(b);
  }

  lemma CircleCloses(t: Tree, top: NasId, low: NasId, ids: set<nat>)
    requires t == Chain(top, low, ids) && top != low && low != 0 && WellLinked(t, VIRT) && Rooted(t.sgs)
    requires AtOrBelow(t.sgs, low, top)
    ensures var u := SetSg(t, VIRT, top, ParentRequest(low), ACCEPTED);
            WellLinked(u, VIRT) && !Rooted(u.sgs)
  {
    SetSgLinksExact(t, VIRT, top, ParentRequest(low), ACCEPTED);
    SetSgRootedExact(t, VIRT, top, ParentRequest(low), ACCEPTED);
  }

  // ---- A queue of one port under a group of another ----

  const SPLIT_KEY: Key := Key(2, 0, UCAST)

  function Split(g: NasId, q: NasId, queueIds: set<nat>, sgIds: set<nat>): Tree {
    Tree(map[SPLIT_KEY := Queue(q, g, 6, true, [])], map[g := Backed(1, 0, [q], 5)], queueIds, sgIds)
  }

  lemma SplitLinks(t: Tree, g: NasId, q: NasId, queueIds: set<nat>, sgIds: set<nat>)
    requires t == Split(g, q, queueIds, sgIds) && g != q && g != 0
    ensures Links(t) && OnRealPorts(t, VIRT) && HwIdsDistinct(t.queues, t.sgs) && Rooted(t.sgs)
  {
    assert t.queues[SPLIT_KEY].id == q;
    assert ListOk(t, g);
    assert Up(t.sgs, g, 1) == 0;
  }

  lemma SplitIsForest(a: nat)
    requires 0 < a <= SG_ID_MAX
    ensures Forest(Split(SgIdOf(a), QueueIdOf(a), {a}, {a}), VIRT)
  {
    var t := Split(SgIdOf(a), QueueIdOf(a), {a}, {a});
    GeneratedGroup(a);
    ReleaseInvertsAlloc(a);
    SplitLinks(t, SgIdOf(a), QueueIdOf(a), {a}, {a});
    OneSgId(t.sgs, a);
    OneQueueId(SPLIT_KEY, t.queues[SPLIT_KEY], a);
    NoneFormed(t.sgs);
    Assembled(t);
  }

  /** Deleting either of two ports joined by a link: the parent is gone, or the list keeps a queue that is gone. */
  lemma DeleteAcrossLinkWitness(a: nat)
    requires 0 < a <= SG_ID_MAX
    ensures var t := Split(SgIdOf(a), QueueIdOf(a), {a}, {a});
            Forest(t, VIRT) && !WellLinked(DeletePort(t, 1), VIRT) && !WellLinked(DeletePort(t, 2), VIRT)
  {
    SplitIsForest(a);
    Crosses(Split(SgIdOf(a), QueueIdOf(a), {a}, {a}), SgIdOf(a), QueueIdOf(a), {a}, {a});
  }

  lemma Crosses(t: Tree, g: NasId, q: NasId, queueIds: set<nat>, sgIds: set<nat>)
    requires t == Split(g, q, queueIds, sgIds) && WellLinked(t, VIRT)
    ensures !WellLinked(DeletePort(t, 1), VIRT) && !WellLinked(DeletePort(t, 2), VIRT)
  {
    DeletePortKeepsIffInside(t, VIRT, 1);
    DeletePortKeepsIffInside(t, VIRT, 2);
    assert SPLIT_KEY in t.queues && t.queues[SPLIT_KEY].parent == g && g != 0;
  }

  function Cleared(t: Tree): Tree
    requires SPLIT_KEY in t.queues
  {
    t.(queues := t.queues[SPLIT_KEY := t.queues[SPLIT_KEY].(ndi := NDI_NULL, created := false)])
  }

  /** Dissociating the queue's port: the queue has lost its hardware side and is still in the list. */
  lemma UnbindWitness(a: nat)
    requires 0 < a <= SG_ID_MAX
    ensures var t := Split(SgIdOf(a), QueueIdOf(a), {a}, {a});
            Forest(t, VIRT) && Unbinds(t, Cleared(t), 2, 1) && !ListsMatch(Cleared(t))
  {
    SplitIsForest(a);
    StaysListed(Split(SgIdOf(a), QueueIdOf(a), {a}, {a}), SgIdOf(a), QueueIdOf(a), {a}, {a});
  }

  lemma StaysListed(t: Tree, g: NasId, q: NasId, queueIds: set<nat>, sgIds: set<nat>)
    requires t == Split(g, q, queueIds, sgIds) && Links(t)
    ensures Unbinds(t, Cleared(t), 2, 1) && !ListsMatch(Cleared(t))
  {
    UnboundQueueStaysListed(t, 2, 1, Cleared(t), SPLIT_KEY);
  }

  /** Two accepted creates lead from the empty switch to such a tree. */
  lemma SplitIsReached(sh: VpQueues.Shape, a: nat)
    requires 0 < a <= SG_ID_MAX
    ensures var g := SgIdOf(a);
            var moves := [CreateSgMove(SgRequest(Some(1), Some(1), Some(0), Some(8), Some(0)), GroupAccepted(a)),
                          CreateQueueMove(SPLIT_KEY, Some(g), QueueAccepted(a))];
            var states := [State(EMPTY_TREE, VIRT), State(Lone(g, {a}), VIRT),
                           State(Split(g, QueueIdOf(a), {a}, {a}), VIRT)];
            IsRun(sh, moves, states)
  {
    var g := SgIdOf(a);
    GeneratedGroup(a);
    var r := SgRequest(Some(1), Some(1), Some(0), Some(8), Some(0));
    GroupCreated(a, g, r);
    QueueCreated(a, g);
    var moves := [CreateSgMove(r, GroupAccepted(a)), CreateQueueMove(SPLIT_KEY, Some(g), QueueAccepted(a))];
    var states := [State(EMPTY_TREE, VIRT), State(Lone(g, {a}), VIRT),
                   State(Split(g, QueueIdOf(a), {a}, {a}), VIRT)];
    assert MoveAt(sh, moves[0], states, 0) && MoveAt(sh, moves[1], states, 1);
  }

  function GroupAccepted(a: nat): Outside { Outside(true, 5, a, true, false, false, false) }

  function QueueAccepted(a: nat): Outside { Outside(true, 6, a, true, false, false, false) }

  lemma GroupCreated(a: nat, g: NasId, r: SgRequest)
    requires 0 < a <= SG_ID_MAX && g == SgIdOf(a) && g != 0
    requires r == SgRequest(Some(1), Some(1), Some(0), Some(8), Some(0))
    ensures CreateSg(EMPTY_TREE, r, GroupAccepted(a)) == Lone(g, {a})
  {
    assert {} + {a} == {a};
    assert map[][g := Backed(1, 0, [], 5)] == map[g := Backed(1, 0, [], 5)];
  }

  lemma QueueCreated(a: nat, g: NasId)
    requires 0 < a <= SG_ID_MAX && g != 0
    ensures CreateQueue(Lone(g, {a}), SPLIT_KEY, Some(g), QueueAccepted(a)) == Split(g, QueueIdOf(a), {a}, {a})
  {
    var q := QueueIdOf(a);
    assert {} + {a} == {a} && [] + [q] == [q];
    assert map[g := Backed(1, 0, [], 5)][g := Backed(1, 0, [q], 5)] == map[g := Backed(1, 0, [q], 5)];
    assert map[][SPLIT_KEY := Queue(q, g, 6, true, [])] == map[SPLIT_KEY := Queue(q, g, 6, true, [])];
  }

  // ---- Two groups of a virtual port ----

  function Unbound(p: NasId, q: NasId): Tree {
    var row := SchedGroup(7, 1, 0, 0, 0, [], NDI_NULL, false);
    Tree(map[], map[p := row, q := row], {}, {})
  }

  lemma UnboundLinks(t: Tree, p: NasId, q: NasId)
    requires t == Unbound(p, q) && p != 0 && q != 0
    ensures Links(t) && OnRealPorts(t, VIRT) && HwIdsDistinct(t.queues, t.sgs) && Rooted(t.sgs)
    ensures OwnerOf(t.sgs, [p, q], NDI_NULL) == p && OwnerOf(t.sgs, [q, p], NDI_NULL) == q
  {
    assert forall c, p :: !Child(t, c, p);
    assert Up(t.sgs, p, 1) == 0 && Up(t.sgs, q, 1) == 0;
  }

  /**
   The null hardware parent leads to a group of a virtual port instead of to none, and which one
   depends on the order the table is searched in.
   */
  lemma NullParentWitness(i: nat, j: nat)
    requires i < j < 0x1_0000
    ensures var p, q := FormatSgId(7, 1, i), FormatSgId(7, 1, j);
            var t := Unbound(p, q);
            && Forest(t, VIRT) && p != q && p != 0 && q != 0
            && OwnerOf(t.sgs, [p, q], NDI_NULL) == p && OwnerOf(t.sgs, [q, p], NDI_NULL) == q
  {
    var p, q := FormatSgId(7, 1, i), FormatSgId(7, 1, j);
    SgIdRoundTrip(7, 1, i);
    SgIdRoundTrip(7, 1, j);
    SgIdValue(7, 1, i);
    SgIdValue(7, 1, j);
    UnboundLinks(Unbound(p, q), p, q);
    AllPacked(Unbound(p, q).sgs);
    NoQueueIds();
    Assembled(Unbound(p, q));
  }

  // ---- A queue of a virtual port under its preset parent ----

  const VP_KEY: Key := Key(7, 0, UCAST)

  function Preset(p: NasId, q: NasId, queueIds: set<nat>): Tree {
    Tree(map[VP_KEY := Queue(q, p, NDI_NULL, false, [])],
         map[p := SchedGroup(7, 1, 0, 0, 0, [], NDI_NULL, false)], queueIds, {})
  }

  lemma PresetLinks(t: Tree, p: NasId, q: NasId, queueIds: set<nat>)
    requires t == Preset(p, q, queueIds) && p != 0 && p != q
    ensures Links(t) && OnRealPorts(t, VIRT) && HwIdsDistinct(t.queues, t.sgs) && Rooted(t.sgs)
  {
    assert forall c, g :: !Child(t, c, g);
    assert Up(t.sgs, p, 1) == 0;
  }

  function Bound(t: Tree): Tree
    requires VP_KEY in t.queues
  {
    t.(queues := t.queues[VP_KEY := t.queues[VP_KEY].(ndi := 6, created := true)])
  }

  lemma BoundIsUnlisted(t: Tree, p: NasId, q: NasId, queueIds: set<nat>)
    requires t == Preset(p, q, queueIds) && p != 0 && Links(t)
    ensures Binds(t, Bound(t), 7, 1) && !Links(Bound(t)) && HwIdsDistinct(Bound(t).queues, Bound(t).sgs)
  {
    BoundQueueUnlisted(t, 7, 1, Bound(t), VP_KEY);
  }

  /** Associating a virtual port: its queue is hardware-backed under its preset parent, which does not list it. */
  lemma BindWitness(i: nat, a: nat)
    requires i < 0x1_0000 && 0 < a <= QUEUE_ID_MAX
    ensures var t := Preset(FormatSgId(7, 1, i), QueueIdOf(a), {a});
            Forest(t, VIRT) && Binds(t, Bound(t), 7, 1) && !Links(Bound(t))
  {
    var p, q := FormatSgId(7, 1, i), QueueIdOf(a);
    var t := Preset(p, q, {a});
    SgIdRoundTrip(7, 1, i);
    SgIdValue(7, 1, i);
    IdKindsDisjoint(7, 1, i, a, a);
    PresetLinks(t, p, q, {a});
    AllPacked(t.sgs);
    OneQueueId(VP_KEY, t.queues[VP_KEY], a);
    Assembled(t);
    BoundIsUnlisted(t, p, q, {a});
  }
}
