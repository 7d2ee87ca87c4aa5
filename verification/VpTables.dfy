/** What the tables hold for a virtual port, as values. */
module VpTables {
  import opened Wrappers
  import opened NasIds
  import opened IdGenerator
  import opened OrderedKeys
  import opened QosRows
  import opened QosSwitches
  import opened VpQueues

  const VP_PGS: nat := 8

  datatype Tables = Tables(queues: map<Key, Queue>, queueIds: set<nat>, sgs: map<NasId, SchedGroup>, sgIds: set<nat>,
                           pgs: map<Key, PriorityGroup>, pgIds: set<nat>,
                           ingress: map<nat, PortIngress>, egress: map<nat, PortEgress>)

  // ---- The id lists of the port nodes ----

  /** The ids of the port's priority groups, all of them, in key order. */
  ghost predicate ListsPgs(pgs: map<Key, PriorityGroup>, port: nat, list: seq<NasId>) {
    FirstPgIds(pgs, port, |PortKeys(pgs.Keys, port)|, list)
  }

  /** The ids of the port's queues, all of them, in key order. */
  ghost predicate ListsQueues(queues: map<Key, Queue>, port: nat, list: seq<NasId>) {
    FirstQueueIds(queues, port, |PortKeys(queues.Keys, port)|, list)
  }

  /** The egress node: the queue ids, and how many queues of each type, as a byte. */
  ghost predicate EgressMatches(queues: map<Key, Queue>, port: nat, node: PortEgress) {
    && ListsQueues(queues, port, node.queueIds)
    && node.ucast == |MatchingKind(PortKeys(queues.Keys, port), UCAST)| % 0x100
    && node.mcast == |MatchingKind(PortKeys(queues.Keys, port), MULTICAST)| % 0x100
  }

  ghost predicate IngressMatches(t: Tables, port: nat) {
    port in t.ingress ==> ListsPgs(t.pgs, port, t.ingress[port].pgIds)
  }

  ghost predicate EgressOk(t: Tables, port: nat) {
    port in t.egress ==> EgressMatches(t.queues, port, t.egress[port])
  }

  /** Whatever port nodes there are match the port's current rows. */
  ghost predicate NodesMatch(t: Tables, port: nat) { IngressMatches(t, port) && EgressOk(t, port) }

  /** A port's rows determine the listing, and it has no duplicates. */
  lemma PgListIsDetermined(pgs: map<Key, PriorityGroup>, inUse: set<nat>, port: nat, list: seq<NasId>,
                           list': seq<NasId>)
    requires PgIdsOk(pgs, inUse) && ListsPgs(pgs, port, list) && ListsPgs(pgs, port, list')
    ensures list == list' && |list| == |PortKeys(pgs.Keys, port)|
    ensures forall i, j :: 0 <= i < j < |list| ==> list[i] != list[j]
  {
    var order :| IsOrderOf(order, PortKeys(pgs.Keys, port)) && PgIdsAlong(pgs, order, list)
                 && |list| == Min(|PortKeys(pgs.Keys, port)|, |order|);
    var order' :| IsOrderOf(order', PortKeys(pgs.Keys, port)) && PgIdsAlong(pgs, order', list')
                  && |list'| == Min(|PortKeys(pgs.Keys, port)|, |order'|);
    SortedIsUnique(order, order');
    OrderLength(order, PortKeys(pgs.Keys, port));
    forall i, j | 0 <= i < j < |list| ensures list[i] != list[j] {
      assert Less(order[i], order[j]);
    }
  }

  lemma QueueListIsDetermined(queues: map<Key, Queue>, inUse: set<nat>, port: nat, list: seq<NasId>, list': seq<NasId>)
    requires QueueIdsOk(queues, inUse) && ListsQueues(queues, port, list) && ListsQueues(queues, port, list')
    ensures list == list' && |list| == |PortKeys(queues.Keys, port)|
    ensures forall i, j :: 0 <= i < j < |list| ==> list[i] != list[j]
  {
    var order :| IsOrderOf(order, PortKeys(queues.Keys, port)) && QueueIdsAlong(queues, order, list)
                 && |list| == Min(|PortKeys(queues.Keys, port)|, |order|);
    var order' :| IsOrderOf(order', PortKeys(queues.Keys, port)) && QueueIdsAlong(queues, order', list')
                  && |list'| == Min(|PortKeys(queues.Keys, port)|, |order'|);
    SortedIsUnique(order, order');
    OrderLength(order, PortKeys(queues.Keys, port));
    forall i, j | 0 <= i < j < |list| ensures list[i] != list[j] {
      assert Less(order[i], order[j]);
    }
  }

  // ---- The rows of one port ----

  /** The port has the same queue rows, as far as keys and ids go. */
  ghost predicate SameQueueIds(a: map<Key, Queue>, b: map<Key, Queue>, port: nat) {
    forall k: Key :: k.port == port ==> (k in a <==> k in b) && (k in a ==> a[k].id == b[k].id)
  }

  /** The port has the same queue rows. */
  ghost predicate SameQueues(a: map<Key, Queue>, b: map<Key, Queue>, port: nat) {
    forall k: Key :: k.port == port ==> (k in a <==> k in b) && (k in a ==> a[k] == b[k])
  }

  ghost predicate SamePgs(a: map<Key, PriorityGroup>, b: map<Key, PriorityGroup>, port: nat) {
    forall k: Key :: k.port == port ==> (k in a <==> k in b) && (k in a ==> a[k] == b[k])
  }

  ghost predicate SameSgs(a: map<NasId, SchedGroup>, b: map<NasId, SchedGroup>, port: nat) {
    SgsOfPort(a, port) == SgsOfPort(b, port) && forall s :: s in SgsOfPort(a, port) ==> a[s] == b[s]
  }

  ghost predicate SamePort(t: Tables, u: Tables, port: nat) {
    && SameQueues(t.queues, u.queues, port) && SamePgs(t.pgs, u.pgs, port) && SameSgs(t.sgs, u.sgs, port)
    && (port in t.ingress <==> port in u.ingress) && (port in t.ingress ==> t.ingress[port] == u.ingress[port])
    && (port in t.egress <==> port in u.egress) && (port in t.egress ==> t.egress[port] == u.egress[port])
  }

  /** Nothing about any other port changed. */
  ghost predicate OthersSame(t: Tables, u: Tables, port: nat) {
    forall p: nat :: p != port ==> SamePort(t, u, p)
  }

  lemma SamePgsSameLists(a: map<Key, PriorityGroup>, b: map<Key, PriorityGroup>, port: nat, list: seq<NasId>)
    requires SamePgs(a, b, port)
    ensures PortKeys(a.Keys, port) == PortKeys(b.Keys, port)
    ensures ListsPgs(a, port, list) ==> ListsPgs(b, port, list)
  {
    assert PortKeys(a.Keys, port) == PortKeys(b.Keys, port);
    if ListsPgs(a, port, list) {
      var order :| IsOrderOf(order, PortKeys(a.Keys, port)) && PgIdsAlong(a, order, list)
                   && |list| == Min(|PortKeys(a.Keys, port)|, |order|);
      forall j | 0 <= j < |list| ensures order[j] in b && list[j] == b[order[j]].id {
        assert order[j] in order;
      }
      assert PgIdsAlong(b, order, list);
    }
  }

  lemma SameQueuesSameLists(a: map<Key, Queue>, b: map<Key, Queue>, port: nat, node: PortEgress)
    requires SameQueueIds(a, b, port)
    ensures PortKeys(a.Keys, port) == PortKeys(b.Keys, port)
    ensures EgressMatches(a, port, node) ==> EgressMatches(b, port, node)
  {
    assert PortKeys(a.Keys, port) == PortKeys(b.Keys, port);
    if EgressMatches(a, port, node) {
      var order :| IsOrderOf(order, PortKeys(a.Keys, port)) && QueueIdsAlong(a, order, node.queueIds)
                  && |node.queueIds| == Min(|PortKeys(a.Keys, port)|, |order|);
      forall j | 0 <= j < |node.queueIds| ensures order[j] in b && node.queueIds[j] == b[order[j]].id {
        assert order[j] in order;
      }
      assert QueueIdsAlong(b, order, node.queueIds);
    }
  }

  // ---- A port fully up, and not there at all ----

  ghost function VpPgs(port: nat, n: nat): set<Key> {
    set i | 0 <= i < n :: Key(port, i, 0)
  }

  ghost predicate Absent(t: Tables, port: nat) {
    && PortKeys(t.queues.Keys, port) == {} && SgsOfPort(t.sgs, port) == {} && PortKeys(t.pgs.Keys, port) == {}
    && port !in t.ingress && port !in t.egress
  }

  /** A queue of a virtual port: no hardware side, its parent set in advance. */
  function VpQueueRow(id: NasId, parent: NasId): Queue { Queue(id, parent, NDI_NULL, false, []) }

  /** A group of a virtual port: no hardware side, no parent, no child. */
  function VpGroupRow(port: nat, leaf: nat): SchedGroup { SchedGroup(port, leaf, 0, 0, 0, [], NDI_NULL, false) }

  function VpPgRow(id: NasId): PriorityGroup { PriorityGroup(id, 0, NDI_NULL, false) }

  /** The queues and groups of the port are those of a full bring-up, unbound, the queues under their preset parents. */
  ghost predicate HqosUp(queues: map<Key, Queue>, sgs: map<NasId, SchedGroup>, sh: Shape, port: nat) {
    && PortKeys(queues.Keys, port) == VpKeys(port, sh, sh.total)
    && SgsOfPort(sgs, port) == VpGroups(port, sh, sh.ucast)
    && (forall k :: k in queues && k.port == port ==> queues[k] == VpQueueRow(queues[k].id, VpParent(sh, k)))
    && (forall s :: s in sgs && sgs[s].port == port ==> sgs[s] == VpGroupRow(port, sh.leaf))
  }

  /** The port has its eight priority groups, unbound and with no buffer profile. */
  ghost predicate PgsUp(pgs: map<Key, PriorityGroup>, port: nat) {
    && PortKeys(pgs.Keys, port) == VpPgs(port, VP_PGS)
    && forall k :: k in pgs && k.port == port ==> pgs[k] == VpPgRow(pgs[k].id)
  }

  /** All rows of the port are there, unbound, and its two nodes list them. */
  ghost predicate Ready(t: Tables, sh: Shape, port: nat) {
    && HqosUp(t.queues, t.sgs, sh, port) && PgsUp(t.pgs, port)
    && port in t.ingress && port in t.egress && NodesMatch(t, port)
  }

  /**
   Every queue of a ready port has its parent in the table, as a group of the port, exactly when
   multicast queues do not outnumber unicast ones.
   */
  lemma ReadyParentsIffMulticastFits(t: Tables, sh: Shape, port: nat)
    requires Ready(t, sh, port) && forall i: nat :: i < sh.ucast || i < sh.total ==> Packable(port, sh.leaf, i)
    ensures ParentsOnPort(t.queues, t.sgs, port) <==> sh.total <= 2 * sh.ucast
  {
    ParentsExistIffMulticastFits(port, sh);
    UpParents(t.queues, t.sgs, sh, port);
  }

  /** The parents of a port that is up are those set in advance. */
  lemma UpParents(queues: map<Key, Queue>, sgs: map<NasId, SchedGroup>, sh: Shape, port: nat)
    requires HqosUp(queues, sgs, sh, port)
    ensures ParentsOnPort(queues, sgs, port) <==> PresetAllThere(port, sh)
  {
    PresetParents(queues, sgs, port, VpParents(port, sh, sh.total), VpGroups(port, sh, sh.ucast));
    ParentsAlongKeys(port, sh, VpGroups(port, sh, sh.ucast));
  }

  ghost predicate ParentsOnPort(queues: map<Key, Queue>, sgs: map<NasId, SchedGroup>, port: nat) {
    forall k :: k in queues && k.port == port ==> queues[k].parent in sgs && sgs[queues[k].parent].port == port
  }

  lemma PresetParents(queues: map<Key, Queue>, sgs: map<NasId, SchedGroup>, port: nat, parents: map<Key, NasId>,
                      groups: set<NasId>)
    requires PortKeys(queues.Keys, port) == parents.Keys && SgsOfPort(sgs, port) == groups
    requires forall k :: k in queues && k.port == port ==> k in parents && queues[k].parent == parents[k]
    ensures ParentsOnPort(queues, sgs, port) <==> forall k :: k in parents ==> parents[k] in groups
  {
    forall k | k in queues && k.port == port
      ensures parents[k] in groups <==> parents[k] in sgs && sgs[parents[k]].port == port {}
    forall k | k in parents ensures k in queues && k.port == port {
      assert k in PortKeys(queues.Keys, port);
    }
  }

  lemma ParentsAlongKeys(port: nat, sh: Shape, groups: set<NasId>)
    ensures (forall k :: k in VpParents(port, sh, sh.total) ==> VpParents(port, sh, sh.total)[k] in groups)
       <==> forall idx :: 0 <= idx < sh.total ==> VpParent(sh, VpKey(port, sh, idx)) in groups
  {
    forall idx | 0 <= idx < sh.total ensures VpKey(port, sh, idx) in VpParents(port, sh, sh.total) {
      assert VpKey(port, sh, idx) in VpKeys(port, sh, sh.total);
    }
  }

  lemma SamePortSameState(t: Tables, u: Tables, sh: Shape, port: nat)
    requires SamePort(t, u, port)
    ensures Absent(t, port) ==> Absent(u, port)
    ensures Ready(t, sh, port) ==> Ready(u, sh, port)
  {
    SamePortSameNodes(t, u, port);
    SamePortSameHqos(t, u, sh, port);
  }

  /** The same rows are up alike. */
  lemma SamePortSameHqos(t: Tables, u: Tables, sh: Shape, port: nat)
    requires SamePort(t, u, port)
    ensures HqosUp(t.queues, t.sgs, sh, port) ==> HqosUp(u.queues, u.sgs, sh, port)
    ensures PgsUp(t.pgs, port) ==> PgsUp(u.pgs, port)
  {
    SamePortSameNodes(t, u, port);
    if HqosUp(t.queues, t.sgs, sh, port) {
      SameSgRows(t.sgs, u.sgs, port, sh.leaf);
    }
  }

  lemma SameSgRows(a: map<NasId, SchedGroup>, b: map<NasId, SchedGroup>, port: nat, leaf: nat)
    requires SameSgs(a, b, port) && forall s :: s in a && a[s].port == port ==> a[s] == VpGroupRow(port, leaf)
    ensures forall s :: s in b && b[s].port == port ==> b[s] == VpGroupRow(port, leaf)
  {
    forall s | s in b && b[s].port == port ensures b[s] == VpGroupRow(port, leaf) {
      assert s in SgsOfPort(b, port);
    }
  }

  /** The same rows and nodes match or mismatch alike. */
  lemma SamePortSameNodes(t: Tables, u: Tables, port: nat)
    requires SamePort(t, u, port)
    ensures IngressMatches(t, port) <==> IngressMatches(u, port)
    ensures EgressOk(t, port) <==> EgressOk(u, port)
    ensures PortKeys(u.queues.Keys, port) == PortKeys(t.queues.Keys, port)
    ensures PortKeys(u.pgs.Keys, port) == PortKeys(t.pgs.Keys, port)
  {
    SamePgsSameLists(u.pgs, t.pgs, port, if port in t.ingress then t.ingress[port].pgIds else []);
    SameQueuesSameLists(u.queues, t.queues, port, if port in t.egress then t.egress[port] else PortEgress([], 0, 0));
    SamePgsSameLists(t.pgs, u.pgs, port, if port in t.ingress then t.ingress[port].pgIds else []);
    SameQueuesSameLists(t.queues, u.queues, port, if port in t.egress then t.egress[port] else PortEgress([], 0, 0));
  }

  /** A ready port's egress node counts its unicast queues and the rest. */
  lemma ReadyCounts(t: Tables, sh: Shape, port: nat)
    requires Ready(t, sh, port)
    ensures t.egress[port].ucast == Min(sh.total, sh.ucast) % 0x100
    ensures t.egress[port].mcast == (sh.total - Min(sh.total, sh.ucast)) % 0x100
  {
    VpKeyCount(port, sh, sh.total, UCAST);
    VpKeyCount(port, sh, sh.total, MULTICAST);
  }

  // ---- What the notifications do to queues and groups ----

  ghost predicate NoHqos(queues: map<Key, Queue>, sgs: map<NasId, SchedGroup>, port: nat) {
    PortKeys(queues.Keys, port) == {} && SgsOfPort(sgs, port) == {}
  }

  /** Queues with these keys were added, unbound, each with its parent set in advance. */
  ghost predicate QueuesAdded(before: map<Key, Queue>, after: map<Key, Queue>, parents: map<Key, NasId>) {
    && after.Keys == before.Keys + parents.Keys
    && (forall k :: k in before ==> after[k] == before[k])
    && (forall k :: k in after && k !in before ==> after[k] == VpQueueRow(after[k].id, parents[k]))
  }

  /** The parents of the first n queues. */
  ghost function VpParents(port: nat, sh: Shape, n: nat): map<Key, NasId> {
    map k | k in VpKeys(port, sh, n) :: VpParent(sh, k)
  }

  /** These groups of the port were added, with no parent and no child. */
  ghost predicate SgsAdded(before: map<NasId, SchedGroup>, after: map<NasId, SchedGroup>, port: nat, leaf: nat,
                           groups: set<NasId>) {
    && after.Keys == before.Keys + groups
    && (forall s :: s in before ==> after[s] == before[s])
    && (forall s :: s in after && s !in before ==> after[s] == VpGroupRow(port, leaf))
  }

  /** The first queues of the port were added, and its groups once all queues were. */
  ghost predicate VpFilled(q: map<Key, Queue>, s: map<NasId, SchedGroup>, q': map<Key, Queue>,
                           s': map<NasId, SchedGroup>, sh: Shape, port: nat) {
    exists n ::
      && 0 <= n <= sh.total && QueuesAdded(q, q', VpParents(port, sh, n))
      && (if n < sh.total then s' == s else SgsAdded(s, s', port, sh.leaf, VpGroups(port, sh, sh.ucast)))
  }

  /** Same keys and ids; only what the hardware association set is cleared. */
  ghost predicate QueuesReset(before: map<Key, Queue>, after: map<Key, Queue>, port: nat) {
    && after.Keys == before.Keys
    && forall k :: k in before ==>
         after[k] == if k.port == port then before[k].(ndi := NDI_NULL, created := false) else before[k]
  }

  ghost predicate SgsReset(before: map<NasId, SchedGroup>, after: map<NasId, SchedGroup>, port: nat, leaf: nat) {
    && after.Keys == before.Keys
    && forall s :: s in before ==>
         after[s] == if before[s].port == port && before[s].level == leaf
                     then before[s].(ndi := NDI_NULL, created := false) else before[s]
  }

  // ---- Id discipline ----

  ghost predicate IdsOk(t: Tables) {
    QueueIdsOk(t.queues, t.queueIds) && SgIdsOk(t.sgs, t.sgIds) && PgIdsOk(t.pgs, t.pgIds) && SgsAtHome(t.sgs)
  }

  lemma NewPgKeepsIds(pgs: map<Key, PriorityGroup>, inUse: set<nat>, key: Key, id: nat)
    requires PgIdsOk(pgs, inUse) && IsFree(inUse, PG_ID_MAX, id) && key !in pgs
    ensures PgIdsOk(pgs[key := VpPgRow(id)], inUse + {id})
  {}

  lemma VpGroupIsFormed(port: nat, sh: Shape, i: nat)
    requires Packable(port, sh.leaf, i)
    ensures Formed(FormatSgId(port, sh.leaf, i)) && SgPort(FormatSgId(port, sh.leaf, i)) == port
  {
    SgIdRoundTrip(port, sh.leaf, i);
  }

  predicate PackableShape(port: nat, sh: Shape) {
    port < 0x1_0000_0000 && sh.leaf < 256 && sh.ucast <= 0x1_0000
  }
}
