/** The life of a virtual port in the switch: created, dissociated from a physical port, deleted. */
module PortLifecycle {
  import opened Wrappers
  import opened NasIds
  import opened IdGenerator
  import opened OrderedKeys
  import opened QosRows
  import opened QosSwitches
  import opened VpQueues
  import opened VpTables
  import HqosForest
  import HqosOperations
  import HqosVirtual
  import VpEffects

  ghost function TablesOf(sw: QosSwitch): Tables
    reads sw
  {
    Tables(sw.queues, sw.queueIds, sw.sgs, sw.sgIds, sw.pgs, sw.pgIds, sw.ingress, sw.egress)
  }

  function ShapeOf(sw: QosSwitch): Shape {
    Shape(sw.ucastQueues, sw.totalQueues, sw.leafLevel)
  }

  // ---- Filling the tables ----

  /** The generator values of the queues added. */
  ghost function NewQueueIds(before: map<Key, Queue>, after: map<Key, Queue>): set<nat> {
    set k | k in after && k !in before :: QueueRawOf(after[k].id)
  }

  lemma AddOneQueue(before: map<Key, Queue>, mid: map<Key, Queue>, parents: map<Key, NasId>, key: Key, row: Queue)
    requires QueuesAdded(before, mid, parents) && key !in mid && row == VpQueueRow(row.id, row.parent)
    ensures QueuesAdded(before, mid[key := row], parents[key := row.parent])
  {}

  lemma OneNewQueueId(before: map<Key, Queue>, mid: map<Key, Queue>, key: Key, row: Queue, raw: nat)
    requires before.Keys <= mid.Keys && key !in mid && row.id == QueueIdOf(raw) && raw <= QUEUE_ID_MAX
    ensures NewQueueIds(before, mid[key := row]) == NewQueueIds(before, mid) + {raw}
  {
    ReleaseInvertsAlloc(raw);
    var after := mid[key := row];
    assert key in after && key !in before;
    forall k | k in mid && k !in before ensures QueueRawOf(mid[k].id) in NewQueueIds(before, after) {
      assert after[k] == mid[k];
    }
  }

  lemma OneMoreParent(port: nat, sh: Shape, n: nat)
    ensures VpKey(port, sh, n) !in VpParents(port, sh, n)
    ensures VpParents(port, sh, n + 1) == VpParents(port, sh, n)[VpKey(port, sh, n) := VpParent(sh, VpKey(port, sh, n))]
  {
    OneMoreKey(port, sh, n);
    var more, fewer := VpParents(port, sh, n + 1), VpParents(port, sh, n);
    assert more.Keys == fewer.Keys + {VpKey(port, sh, n)};
    forall k | k in fewer ensures more[k] == fewer[k] {}
  }

  datatype QueueStore = QueueStore(queues: map<Key, Queue>, ids: set<nat>)

  /** Queues added under ids in use; `exact` when their ids are all that was taken. */
  ghost predicate QueuesJoined(a: QueueStore, b: QueueStore, parents: map<Key, NasId>, exact: bool) {
    match b
    case QueueStore(queues, ids) =>
      && QueuesAdded(a.queues, queues, parents) && QueueIdsOk(queues, ids)
      && (exact ==> ids == a.ids + NewQueueIds(a.queues, queues))
  }

  lemma NoneJoined(a: QueueStore, parents: map<Key, NasId>)
    requires QueueIdsOk(a.queues, a.ids) && parents == map[]
    ensures QueuesJoined(a, a, parents, true)
  {}

  lemma QueueJoins(a: QueueStore, b: QueueStore, parents: map<Key, NasId>, key: Key, row: Queue, raw: nat)
    requires QueuesJoined(a, b, parents, true)
    requires key !in b.queues && row == VpQueueRow(row.id, row.parent)
    requires IsFree(b.ids, QUEUE_ID_MAX, raw) && row.id == QueueIdOf(raw)
    ensures QueuesJoined(a, QueueStore(b.queues[key := row], b.ids + {raw}), parents[key := row.parent], true)
  {
    AddOneQueue(a.queues, b.queues, parents, key, row);
    NewQueueKeepsIds(b.queues, b.ids, key, row, raw);
    OneNewQueueId(a.queues, b.queues, key, row, raw);
  }

  /** An id taken for a key that is already there is never given back. */
  lemma IdLost(a: QueueStore, b: QueueStore, parents: map<Key, NasId>, raw: nat)
    requires QueuesJoined(a, b, parents, true) && raw <= QUEUE_ID_MAX
    ensures QueuesJoined(a, QueueStore(b.queues, b.ids + {raw}), parents, false)
  {}

  /** nas_qos_port_queue_init_vp */
  method QueueInitVp(sw: QosSwitch, port: nat) returns (ok: bool, ghost n: nat)
    requires QueueIdsOk(sw.queues, sw.queueIds)
    modifies sw`queues, sw`queueIds
    ensures n <= sw.totalQueues && (ok <==> n == sw.totalQueues)
    ensures QueuesJoined(old(QueueStore(sw.queues, sw.queueIds)), QueueStore(sw.queues, sw.queueIds),
            VpParents(port, ShapeOf(sw), n), ok)
    ensures !ok ==> QUEUE_ID_MAX <= |sw.queueIds| || VpKey(port, ShapeOf(sw), n) in old(sw.queues)
  {
    ghost var start, parents := QueueStore(sw.queues, sw.queueIds), VpParents(port, ShapeOf(sw), 0);
    NoneJoined(start, parents);
    var idx := 0;
    while idx < sw.totalQueues
      invariant idx <= sw.totalQueues && parents == VpParents(port, ShapeOf(sw), idx)
      invariant QueuesJoined(start, QueueStore(sw.queues, sw.queueIds), parents, true)
    {
      ghost var next := VpParents(port, ShapeOf(sw), idx + 1);
      var added := AddVpQueueAt(sw, port, idx, start, parents, next);
      if !added {
        return false, idx;
      }
      idx, parents := idx + 1, next;
    }
    return true, idx;
  }

  /** One turn of the loop above. */
  method AddVpQueueAt(sw: QosSwitch, port: nat, idx: nat, ghost start: QueueStore,
                      ghost parents: map<Key, NasId>, ghost next: map<Key, NasId>) returns (ok: bool)
    requires parents == VpParents(port, ShapeOf(sw), idx) && next == VpParents(port, ShapeOf(sw), idx + 1)
    requires QueuesJoined(start, QueueStore(sw.queues, sw.queueIds), parents, true)
    modifies sw`queues, sw`queueIds
    ensures QueuesJoined(start, QueueStore(sw.queues, sw.queueIds), if ok then next else parents, ok)
    ensures !ok ==> QUEUE_ID_MAX <= |sw.queueIds| || VpKey(port, ShapeOf(sw), idx) in start.queues
  {
    var local := if idx < sw.ucastQueues then idx else idx - sw.ucastQueues;
    var key := Key(port, local, if idx < sw.ucastQueues then UCAST else MULTICAST);
    var parent := FormatSgId(port, sw.leafLevel, local);
    OneMoreParent(port, ShapeOf(sw), idx);
    ok := AddVpQueue(sw, key, parent, start, parents, next);
  }

  method AddVpQueue(sw: QosSwitch, key: Key, parent: NasId, ghost start: QueueStore,
                    ghost parents: map<Key, NasId>, ghost next: map<Key, NasId>) returns (ok: bool)
    requires QueuesJoined(start, QueueStore(sw.queues, sw.queueIds), parents, true)
    requires key !in parents && next == parents[key := parent]
    modifies sw`queues, sw`queueIds
    ensures QueuesJoined(start, QueueStore(sw.queues, sw.queueIds), if ok then next else parents, ok)
    ensures !ok ==> QUEUE_ID_MAX <= |sw.queueIds| || key in start.queues
  {
    ghost var mid := QueueStore(sw.queues, sw.queueIds);
    var id, raw := sw.AllocQueueId();
    if id.None? {
      return false;
    }
    var row := VpQueueRow(id.value, parent);
    ok := sw.AddQueue(key, row);
    if ok {
      QueueJoins(start, mid, parents, key, row, raw);
    } else {
      IdLost(start, mid, parents, raw);
    }
  }

  lemma AddOneSg(before: map<NasId, SchedGroup>, mid: map<NasId, SchedGroup>, port: nat, leaf: nat, groups: set<NasId>,
                 id: NasId)
    requires SgsAdded(before, mid, port, leaf, groups) && id !in mid
    ensures SgsAdded(before, mid[id := VpGroupRow(port, leaf)], port, leaf, groups + {id})
  {}

  ghost predicate SgDiscipline(sgs: map<NasId, SchedGroup>, inUse: set<nat>) {
    SgIdsOk(sgs, inUse) && SgsAtHome(sgs)
  }

  lemma NewSgKeepsIds(sgs: map<NasId, SchedGroup>, inUse: set<nat>, id: NasId, row: SchedGroup)
    requires SgDiscipline(sgs, inUse) && Formed(id) && SgPort(id) == row.port
    ensures SgDiscipline(sgs[id := row], inUse)
  {}

  lemma MoreGroups(port: nat, sh: Shape, n: nat, id: NasId)
    requires id == FormatSgId(port, sh.leaf, n)
    ensures VpGroups(port, sh, n + 1) == VpGroups(port, sh, n) + {id}
  {
    forall s | s in VpGroups(port, sh, n + 1) ensures s in VpGroups(port, sh, n) + {id} {
      var i :| 0 <= i < n + 1 && FormatSgId(port, sh.leaf, i) == s;
    }
  }

  lemma GroupIsNew(port: nat, sh: Shape, n: nat, id: NasId)
    requires PackableShape(port, sh) && n < sh.ucast && id == FormatSgId(port, sh.leaf, n)
    ensures id !in VpGroups(port, sh, n)
  {
    forall i | 0 <= i < n ensures FormatSgId(port, sh.leaf, i) != id {
      SgIdMonotone(port, sh.leaf, i, n);
    }
  }

  lemma NewGroup(port: nat, sh: Shape, n: nat, id: NasId)
    requires PackableShape(port, sh) && n < sh.ucast && id == FormatSgId(port, sh.leaf, n)
    ensures VpGroups(port, sh, n + 1) == VpGroups(port, sh, n) + {id}
    ensures id !in VpGroups(port, sh, n) && Formed(id) && SgPort(id) == port
  {
    VpGroupIsFormed(port, sh, n);
    MoreGroups(port, sh, n, id);
    GroupIsNew(port, sh, n, id);
  }

  /** One turn of the loop below. */
  method AddVpGroup(sw: QosSwitch, port: nat, id: NasId, ghost before: map<NasId, SchedGroup>,
                    ghost groups: set<NasId>, ghost next: set<NasId>) returns (ok: bool)
    requires SgsAdded(before, sw.sgs, port, sw.leafLevel, groups) && SgDiscipline(sw.sgs, sw.sgIds)
    requires id !in groups && Formed(id) && SgPort(id) == port && next == groups + {id}
    modifies sw`sgs
    ensures SgDiscipline(sw.sgs, sw.sgIds)
    ensures ok ==> SgsAdded(before, sw.sgs, port, sw.leafLevel, next)
    ensures !ok ==> sw.sgs == old(sw.sgs) && SgsOfPort(before, port) != {}
  {
    var row := VpGroupRow(port, sw.leafLevel);
    ghost var mid := sw.sgs;
    GroupAtHome(mid, sw.sgIds, id);
    ok := sw.AddSchedGroup(id, row);
    if ok {
      AddOneSg(before, mid, port, sw.leafLevel, groups, id);
      NewSgKeepsIds(mid, sw.sgIds, id, row);
    } else {
      assert id in SgsOfPort(before, port);
    }
  }

  lemma GroupAtHome(sgs: map<NasId, SchedGroup>, inUse: set<nat>, id: NasId)
    requires SgDiscipline(sgs, inUse) && Formed(id)
    ensures id in sgs ==> sgs[id].port == SgPort(id)
  {}

  /** nas_qos_port_scheduler_group_init_vp: it fails only on a group that was already there. */
  method SgInitVp(sw: QosSwitch, port: nat) returns (ok: bool, ghost n: nat)
    requires PackableShape(port, ShapeOf(sw)) && SgDiscipline(sw.sgs, sw.sgIds)
    modifies sw`sgs
    ensures n <= sw.ucastQueues && (ok <==> n == sw.ucastQueues)
    ensures SgsAdded(old(sw.sgs), sw.sgs, port, sw.leafLevel, VpGroups(port, ShapeOf(sw), n))
            && SgDiscipline(sw.sgs, sw.sgIds)
    ensures VpEffects.NewGroupRows(old(sw.sgs), sw.sgs, port, sw.leafLevel, n)
    ensures !ok ==> SgsOfPort(old(sw.sgs), port) != {}
  {
    ghost var sh := ShapeOf(sw);
    var idx := 0;
    while idx < sw.ucastQueues
      invariant idx <= sw.ucastQueues
      invariant SgsAdded(old(sw.sgs), sw.sgs, port, sh.leaf, VpGroups(port, sh, idx)) && SgDiscipline(sw.sgs, sw.sgIds)
    {
      var id := FormatSgId(port, sw.leafLevel, idx);
      NewGroup(port, sh, idx, id);
      var added := AddVpGroup(sw, port, id, old(sw.sgs), VpGroups(port, sh, idx), VpGroups(port, sh, idx + 1));
      if !added {
        VpEffects.AddedGroupRows(old(sw.sgs), sw.sgs, port, sh, idx);
        return false, idx;
      }
      idx := idx + 1;
    }
    VpEffects.AddedGroupRows(old(sw.sgs), sw.sgs, port, sh, idx);
    return true, idx;
  }

  ghost predicate PgsFilled(before: map<Key, PriorityGroup>, after: map<Key, PriorityGroup>, port: nat, n: nat) {
    && after.Keys == before.Keys + VpPgs(port, n)
    && (forall k :: k in before ==> after[k] == before[k])
    && (forall k :: k in after && k !in before ==> after[k] == VpPgRow(after[k].id))
  }

  ghost function NewPgIds(before: map<Key, PriorityGroup>, after: map<Key, PriorityGroup>): set<nat> {
    set k | k in after && k !in before :: after[k].id
  }

  lemma OneNewPgId(before: map<Key, PriorityGroup>, mid: map<Key, PriorityGroup>, key: Key, id: nat)
    requires before.Keys <= mid.Keys && key !in mid
    ensures NewPgIds(before, mid[key := VpPgRow(id)]) == NewPgIds(before, mid) + {id}
  {
    var after := mid[key := VpPgRow(id)];
    assert key in after && key !in before;
    forall k | k in mid && k !in before ensures mid[k].id in NewPgIds(before, after) {
      assert after[k] == mid[k];
    }
  }

  datatype PgStore = PgStore(pgs: map<Key, PriorityGroup>, ids: set<nat>)

  /** The first n groups of the port added, their ids taken and nothing else. */
  ghost predicate PgsJoined(a: PgStore, b: PgStore, port: nat, n: nat) {
    match b
    case PgStore(pgs, ids) => PgsFilled(a.pgs, pgs, port, n) && PgIdsOk(pgs, ids) && ids == a.ids + NewPgIds(a.pgs, pgs)
  }

  lemma PgJoins(a: PgStore, b: PgStore, key: Key, id: nat, port: nat, n: nat)
    requires PgsJoined(a, b, port, n) && key !in b.pgs && VpPgs(port, n + 1) == VpPgs(port, n) + {key}
    requires IsFree(b.ids, PG_ID_MAX, id)
    ensures PgsJoined(a, PgStore(b.pgs[key := VpPgRow(id)], b.ids + {id}), port, n + 1)
  {
    NewPgKeepsIds(b.pgs, b.ids, key, id);
    OneNewPgId(a.pgs, b.pgs, key, id);
  }

  /** nas_qos_port_priority_group_init_vp */
  method PgInitVp(sw: QosSwitch, port: nat) returns (ok: bool, ghost n: nat)
    requires PgIdsOk(sw.pgs, sw.pgIds)
    modifies sw`pgs, sw`pgIds
    ensures n <= VP_PGS && (ok <==> n == VP_PGS)
    ensures PgsFilled(old(sw.pgs), sw.pgs, port, n) && PgIdsOk(sw.pgs, sw.pgIds)
    ensures ok ==> sw.pgIds == old(sw.pgIds) + NewPgIds(old(sw.pgs), sw.pgs)
    ensures !ok ==> PG_ID_MAX <= |sw.pgIds| || Key(port, n, 0) in old(sw.pgs)
  {
    ghost var start := PgStore(sw.pgs, sw.pgIds);
    var idx := 0;
    while idx < VP_PGS
      invariant idx <= VP_PGS
      invariant PgsJoined(start, PgStore(sw.pgs, sw.pgIds), port, idx)
    {
      assert VpPgs(port, idx + 1) == VpPgs(port, idx) + {Key(port, idx, 0)};
      var added := AddVpPg(sw, Key(port, idx, 0), start, port, idx);
      if !added {
        return false, idx;
      }
      idx := idx + 1;
    }
    return true, idx;
  }

  /** One turn of the loop above. */
  method AddVpPg(sw: QosSwitch, key: Key, ghost start: PgStore, ghost port: nat, ghost n: nat) returns (ok: bool)
    requires PgsJoined(start, PgStore(sw.pgs, sw.pgIds), port, n)
    requires key !in VpPgs(port, n) && VpPgs(port, n + 1) == VpPgs(port, n) + {key}
    modifies sw`pgs, sw`pgIds
    ensures PgIdsOk(sw.pgs, sw.pgIds)
    ensures ok ==> PgsJoined(start, PgStore(sw.pgs, sw.pgIds), port, n + 1)
    ensures !ok ==> sw.pgs == old(sw.pgs) && (PG_ID_MAX <= |sw.pgIds| || key in start.pgs)
  {
    ghost var mid := PgStore(sw.pgs, sw.pgIds);
    var id := sw.AllocPgId();
    if id.None? {
      return false;
    }
    ok := sw.AddPriorityGroup(key, VpPgRow(id.value));
    if ok {
      PgJoins(start, mid, key, id.value, port, n);
    }
  }

  // ---- The port nodes ----

  /** nas_qos_port_ingress_init_vp: sized by a first pass, filled by a second. */
  method IngressInitVp(sw: QosSwitch, port: nat) returns (ok: bool)
    modifies sw`ingress
    ensures ok <==> port !in old(sw.ingress)
    ensures !ok ==> sw.ingress == old(sw.ingress)
    ensures ok ==> port in sw.ingress && sw.ingress == old(sw.ingress)[port := sw.ingress[port]]
                   && ListsPgs(sw.pgs, port, sw.ingress[port].pgIds)
  {
    var count, none := sw.GetPortPgIds(port, 0);
    var n, list := sw.GetPortPgIds(port, count);
    ok := sw.AddPortIngress(port, PortIngress(list));
  }

  /** nas_qos_port_egress_init_vp */
  method EgressInitVp(sw: QosSwitch, port: nat) returns (ok: bool)
    modifies sw`egress
    ensures ok <==> port !in old(sw.egress)
    ensures !ok ==> sw.egress == old(sw.egress)
    ensures ok ==> port in sw.egress && sw.egress == old(sw.egress)[port := sw.egress[port]]
                   && EgressMatches(sw.queues, port, sw.egress[port])
  {
    var count, none := sw.GetPortQueueIds(port, 0);
    var n, list := sw.GetPortQueueIds(port, count);
    var ucast := sw.NumberOfPortQueuesByType(port, UCAST);
    var mcast := sw.NumberOfPortQueuesByType(port, MULTICAST);
    ok := sw.AddPortEgress(port, PortEgress(list, ucast % 0x100, mcast % 0x100));
  }

  // ---- Creation ----

  lemma NoKeyOnPort(keys: set<Key>, port: nat, key: Key)
    requires PortKeys(keys, port) == {} && key.port == port
    ensures key !in keys
  {
    assert key !in PortKeys(keys, port);
  }

  lemma QueuesAddedPort(before: map<Key, Queue>, after: map<Key, Queue>, port: nat, parents: map<Key, NasId>)
    requires QueuesAdded(before, after, parents) && forall k :: k in parents ==> k.port == port
    ensures PortKeys(before.Keys, port) == {} ==>
              PortKeys(after.Keys, port) == parents.Keys && NewQueueIds(before, after) == QueueIdsOfPort(after, port)
    ensures PortKeys(before.Keys, port) == {} ==>
              forall k :: k in parents ==> after[k] == VpQueueRow(after[k].id, parents[k])
    ensures forall p: nat :: p != port ==> SameQueues(before, after, p)
  {
    if PortKeys(before.Keys, port) == {} {
      forall k ensures k in PortKeys(after.Keys, port) <==> k in parents {
        assert k !in PortKeys(before.Keys, port);
      }
      forall k ensures k in after && k !in before <==> k in after && k.port == port {
        assert k !in PortKeys(before.Keys, port);
      }
    }
  }

  lemma SgsAddedPort(before: map<NasId, SchedGroup>, after: map<NasId, SchedGroup>, port: nat, leaf: nat,
                     groups: set<NasId>)
    requires SgsAdded(before, after, port, leaf, groups)
    ensures SgsOfPort(before, port) == {} && (forall s :: s in groups ==> s !in before) ==>
              SgsOfPort(after, port) == groups && forall s :: s in groups ==> after[s] == VpGroupRow(port, leaf)
    ensures forall p: nat :: p != port ==> SameSgs(before, after, p)
  {
    if SgsOfPort(before, port) == {} && (forall s :: s in groups ==> s !in before) {
      forall s ensures s in SgsOfPort(after, port) <==> s in groups {
        assert s !in SgsOfPort(before, port);
      }
    }
    forall p: nat | p != port ensures SameSgs(before, after, p) {
      forall s ensures s in SgsOfPort(before, p) <==> s in SgsOfPort(after, p) {}
    }
  }

  /** No group of the port's own name can be there under another port. */
  lemma NoStrayGroups(sgs: map<NasId, SchedGroup>, port: nat, sh: Shape, n: nat)
    requires PackableShape(port, sh) && n <= sh.ucast && SgsAtHome(sgs) && SgsOfPort(sgs, port) == {}
    ensures forall s :: s in VpGroups(port, sh, n) ==> s !in sgs
  {
    forall s | s in VpGroups(port, sh, n) ensures s !in sgs {
      var i :| 0 <= i < n && s == FormatSgId(port, sh.leaf, i);
      VpGroupIsFormed(port, sh, i);
      assert s !in SgsOfPort(sgs, port);
    }
  }

  lemma PgsFilledPort(before: map<Key, PriorityGroup>, after: map<Key, PriorityGroup>, port: nat, n: nat)
    requires PgsFilled(before, after, port, n)
    ensures PortKeys(before.Keys, port) == {} ==>
              PortKeys(after.Keys, port) == VpPgs(port, n) && NewPgIds(before, after) == PgIdsOfPort(after, port)
    ensures PortKeys(before.Keys, port) == {} && n == VP_PGS ==> PgsUp(after, port)
    ensures forall p: nat :: p != port ==> SamePgs(before, after, p)
  {
    if PortKeys(before.Keys, port) == {} {
      forall k ensures k in PortKeys(after.Keys, port) <==> k in VpPgs(port, n) {
        assert k !in PortKeys(before.Keys, port);
      }
      forall k ensures k in after && k !in before <==> k in after && k.port == port {
        assert k !in PortKeys(before.Keys, port);
      }
    }
  }

  ghost predicate OtherHqosSame(q: map<Key, Queue>, s: map<NasId, SchedGroup>, q': map<Key, Queue>, s': map<NasId,
                                SchedGroup>, port: nat) {
    forall p: nat :: p != port ==> SameQueues(q, q', p) && SameSgs(s, s', p)
  }

  lemma NoQueuesAdded(a: QueueStore, b: QueueStore, port: nat, sh: Shape)
    requires QueuesJoined(a, b, VpParents(port, sh, 0), true)
    ensures b == a
  {
    assert b.queues == a.queues && NewQueueIds(a.queues, b.queues) == {};
  }

  lemma NoGroupsAdded(before: map<NasId, SchedGroup>, after: map<NasId, SchedGroup>, port: nat, sh: Shape)
    requires SgsAdded(before, after, port, sh.leaf, VpGroups(port, sh, 0))
    ensures after == before
  {}

  lemma QueuesStop(q: map<Key, Queue>, s: map<NasId, SchedGroup>, q': map<Key, Queue>, sh: Shape, port: nat, n: nat)
    requires QueuesAdded(q, q', VpParents(port, sh, n)) && n < sh.total
    ensures VpFilled(q, s, q', s, sh, port) && OtherHqosSame(q, s, q', s, port)
  {
    QueuesAddedPort(q, q', port, VpParents(port, sh, n));
  }

  lemma AllFilled(q: map<Key, Queue>, s: map<NasId, SchedGroup>, q': map<Key, Queue>, s': map<NasId, SchedGroup>,
                  sh: Shape, port: nat)
    requires PackableShape(port, sh) && NoHqos(q, s, port) && SgsAtHome(s)
    requires QueuesAdded(q, q', VpParents(port, sh, sh.total))
             && SgsAdded(s, s', port, sh.leaf, VpGroups(port, sh, sh.ucast))
    ensures VpFilled(q, s, q', s', sh, port) && OtherHqosSame(q, s, q', s', port)
    ensures HqosUp(q', s', sh, port) && NewQueueIds(q, q') == QueueIdsOfPort(q', port)
  {
    NoStrayGroups(s, port, sh, sh.ucast);
    QueuesAddedPort(q, q', port, VpParents(port, sh, sh.total));
    SgsAddedPort(s, s', port, sh.leaf, VpGroups(port, sh, sh.ucast));
    FilledIsUp(q', s', sh, port, VpParents(port, sh, sh.total));
  }

  lemma FilledIsUp(queues: map<Key, Queue>, sgs: map<NasId, SchedGroup>, sh: Shape, port: nat,
                   parents: map<Key, NasId>)
    requires PortKeys(queues.Keys, port) == parents.Keys == VpKeys(port, sh, sh.total)
    requires forall k :: k in parents ==>
               queues[k] == VpQueueRow(queues[k].id, parents[k]) && parents[k] == VpParent(sh, k)
    requires SgsOfPort(sgs, port) == VpGroups(port, sh, sh.ucast)
    requires forall s :: s in VpGroups(port, sh, sh.ucast) ==> sgs[s] == VpGroupRow(port, sh.leaf)
    ensures HqosUp(queues, sgs, sh, port)
  {
    forall k | k in queues && k.port == port ensures queues[k] == VpQueueRow(queues[k].id, VpParent(sh, k)) {
      assert k in PortKeys(queues.Keys, port);
    }
    forall s | s in sgs && sgs[s].port == port ensures sgs[s] == VpGroupRow(port, sh.leaf) {
      assert s in SgsOfPort(sgs, port);
    }
  }

  /** nas_qos_port_hqos_init of a virtual port: a port with queues or groups is refused. */
  method HqosInitVp(sw: QosSwitch, port: nat) returns (ok: bool)
    requires PackableShape(port, ShapeOf(sw)) && QueueIdsOk(sw.queues, sw.queueIds) && SgDiscipline(sw.sgs, sw.sgIds)
    modifies sw`queues, sw`queueIds, sw`sgs
    ensures QueueIdsOk(sw.queues, sw.queueIds) && SgDiscipline(sw.sgs, sw.sgIds)
    ensures OtherHqosSame(old(sw.queues), old(sw.sgs), sw.queues, sw.sgs, port)
    ensures !NoHqos(old(sw.queues), old(sw.sgs), port) ==>
              !ok && sw.queues == old(sw.queues) && sw.queueIds == old(sw.queueIds) && sw.sgs == old(sw.sgs)
    ensures ok ==>
              && HqosUp(sw.queues, sw.sgs, ShapeOf(sw), port)
              && sw.queueIds == old(sw.queueIds) + QueueIdsOfPort(sw.queues, port)
    ensures NoHqos(old(sw.queues), old(sw.sgs), port) ==>
              VpFilled(old(sw.queues), old(sw.sgs), sw.queues, sw.sgs, ShapeOf(sw), port)
    ensures !ok && NoHqos(old(sw.queues), old(sw.sgs), port) ==> QUEUE_ID_MAX <= |sw.queueIds|
    ensures sw.totalQueues == 0 && sw.ucastQueues == 0 ==>
              sw.queues == old(sw.queues) && sw.queueIds == old(sw.queueIds) && sw.sgs == old(sw.sgs)
  {
    var queuesUp := sw.PortQueueIsInitialized(port);
    var groupsUp := sw.PortSgIsInitialized(port);
    if queuesUp || groupsUp {
      return false;
    }
    ghost var sh := ShapeOf(sw);
    ghost var n;
    ok, n := QueueInitVp(sw, port);
    if !ok {
      NoKeyOnPort(old(sw.queues).Keys, port, VpKey(port, sh, n));
      QueuesStop(old(sw.queues), old(sw.sgs), sw.queues, sh, port, n);
      return;
    }
    ok, n := SgInitVp(sw, port);
    AllFilled(old(sw.queues), old(sw.sgs), sw.queues, sw.sgs, sh, port);
    if sw.totalQueues == 0 && sw.ucastQueues == 0 {
      NoQueuesAdded(old(QueueStore(sw.queues, sw.queueIds)), QueueStore(sw.queues, sw.queueIds), port, sh);
      NoGroupsAdded(old(sw.sgs), sw.sgs, port, sh);
    }
  }

  // ---- Putting the pieces together ----

  /** Two tables of port nodes agree but for one port. */
  ghost predicate NodesElsewhere<V>(a: map<nat, V>, b: map<nat, V>, port: nat) {
    forall p :: p != port ==> (p in a <==> p in b) && (p in a ==> a[p] == b[p])
  }

  ghost predicate PgsElsewhere(a: map<Key, PriorityGroup>, b: map<Key, PriorityGroup>, port: nat) {
    forall p: nat :: p != port ==> SamePgs(a, b, p)
  }

  lemma ElsewhereSame(t: Tables, u: Tables, port: nat)
    requires OtherHqosSame(t.queues, t.sgs, u.queues, u.sgs, port) && PgsElsewhere(t.pgs, u.pgs, port)
    requires NodesElsewhere(t.ingress, u.ingress, port) && NodesElsewhere(t.egress, u.egress, port)
    ensures OthersSame(t, u, port)
  {}

  lemma PgListLength(pgs: map<Key, PriorityGroup>, port: nat, list: seq<NasId>)
    requires ListsPgs(pgs, port, list)
    ensures |list| == |PortKeys(pgs.Keys, port)|
  {
    var order :| IsOrderOf(order, PortKeys(pgs.Keys, port)) && PgIdsAlong(pgs, order, list)
                 && |list| == Min(|PortKeys(pgs.Keys, port)|, |order|);
    OrderLength(order, PortKeys(pgs.Keys, port));
  }

  lemma QueueListLength(queues: map<Key, Queue>, port: nat, list: seq<NasId>)
    requires ListsQueues(queues, port, list)
    ensures |list| == |PortKeys(queues.Keys, port)|
  {
    var order :| IsOrderOf(order, PortKeys(queues.Keys, port)) && QueueIdsAlong(queues, order, list)
                 && |list| == Min(|PortKeys(queues.Keys, port)|, |order|);
    OrderLength(order, PortKeys(queues.Keys, port));
  }

  /** An ingress node made for a port without priority groups does not match it once it has some. */
  lemma EmptyPgListGoesStale(before: map<Key, PriorityGroup>, after: map<Key, PriorityGroup>, port: nat,
                             list: seq<NasId>)
    requires PortKeys(before.Keys, port) == {} && PgsUp(after, port)
    requires ListsPgs(before, port, list)
    ensures !ListsPgs(after, port, list)
  {
    assert Key(port, 0, 0) in VpPgs(port, VP_PGS);
    PgListLength(before, port, list);
    if ListsPgs(after, port, list) {
      PgListLength(after, port, list);
    }
  }

  lemma EmptyQueueListGoesStale(before: map<Key, Queue>, after: map<Key, Queue>, port: nat, sh: Shape, node: PortEgress)
    requires PortKeys(before.Keys, port) == {} && PortKeys(after.Keys, port) == VpKeys(port, sh, sh.total)
             && sh.total > 0
    requires EgressMatches(before, port, node)
    ensures !EgressMatches(after, port, node)
  {
    assert VpKey(port, sh, 0) in VpKeys(port, sh, sh.total);
    QueueListLength(before, port, node.queueIds);
    if EgressMatches(after, port, node) {
      QueueListLength(after, port, node.queueIds);
    }
  }

  /** The queues and groups a create notification leaves, and whether an id generator ran dry. */
  ghost predicate HqosAfterCreate(t: Tables, u: Tables, sh: Shape, port: nat, dry: bool) {
    && OtherHqosSame(t.queues, t.sgs, u.queues, u.sgs, port)
    && (!NoHqos(t.queues, t.sgs, port) ==> u.queues == t.queues && u.queueIds == t.queueIds && u.sgs == t.sgs && !dry)
    && (NoHqos(t.queues, t.sgs, port) ==> VpFilled(t.queues, t.sgs, u.queues, u.sgs, sh, port))
    && (NoHqos(t.queues, t.sgs, port) && !dry ==>
          HqosUp(u.queues, u.sgs, sh, port) && u.queueIds == t.queueIds + QueueIdsOfPort(u.queues, port))
    && (sh.total == 0 && sh.ucast == 0 ==> u.queues == t.queues && u.queueIds == t.queueIds && u.sgs == t.sgs)
  }

  method CreateHqos(sw: QosSwitch, port: nat) returns (dry: bool)
    requires PackableShape(port, ShapeOf(sw)) && QueueIdsOk(sw.queues, sw.queueIds) && SgDiscipline(sw.sgs, sw.sgIds)
    modifies sw`queues, sw`queueIds, sw`sgs
    ensures QueueIdsOk(sw.queues, sw.queueIds) && SgDiscipline(sw.sgs, sw.sgIds)
    ensures HqosAfterCreate(old(TablesOf(sw)), TablesOf(sw), ShapeOf(sw), port, dry)
    ensures HqosVirtual.CreatesVp(old(HqosOperations.TreeOf(sw)), HqosOperations.TreeOf(sw), ShapeOf(sw), port)
    ensures dry ==> QUEUE_ID_MAX <= |sw.queueIds|
  {
    dry := false;
    var queuesUp := sw.PortQueueIsInitialized(port);
    var groupsUp := sw.PortSgIsInitialized(port);
    if !(queuesUp && groupsUp) {
      var ok := HqosInitVp(sw, port);
      dry := !ok && !queuesUp && !groupsUp;
    }
  }

  /** The priority groups a create notification leaves, with their ids in use. */
  ghost predicate PgsAfterCreate(t: Tables, u: Tables, port: nat, dry: bool) {
    && PgsElsewhere(t.pgs, u.pgs, port)
    && (PortKeys(t.pgs.Keys, port) != {} ==> u.pgs == t.pgs && u.pgIds == t.pgIds && !dry)
    && (PortKeys(t.pgs.Keys, port) == {} && !dry ==>
          PgsUp(u.pgs, port) && u.pgIds == t.pgIds + PgIdsOfPort(u.pgs, port))
  }

  method CreatePgs(sw: QosSwitch, port: nat) returns (dry: bool)
    requires PgIdsOk(sw.pgs, sw.pgIds)
    modifies sw`pgs, sw`pgIds
    ensures PgIdsOk(sw.pgs, sw.pgIds) && PgsAfterCreate(old(TablesOf(sw)), TablesOf(sw), port, dry)
    ensures dry ==> PG_ID_MAX <= |sw.pgIds|
  {
    dry := false;
    var pgsUp := sw.PortPgIsInitialized(port);
    if !pgsUp {
      var ok, n := PgInitVp(sw, port);
      PgsFilledPort(old(sw.pgs), sw.pgs, port, n);
      NoKeyOnPort(old(sw.pgs).Keys, port, Key(port, n, 0));
      dry := !ok;
    }
  }

  /** Both nodes are there, and each is the old one or a new one that matches. */
  ghost predicate NodesAfterCreate(t: Tables, u: Tables, port: nat) {
    && port in u.ingress && port in u.egress
    && NodesElsewhere(t.ingress, u.ingress, port) && NodesElsewhere(t.egress, u.egress, port)
    && (if port in t.ingress then u.ingress == t.ingress else ListsPgs(u.pgs, port, u.ingress[port].pgIds))
    && (if port in t.egress then u.egress == t.egress else EgressMatches(u.queues, port, u.egress[port]))
  }

  method CreateNodes(sw: QosSwitch, port: nat)
    modifies sw`ingress, sw`egress
    ensures NodesAfterCreate(old(TablesOf(sw)), TablesOf(sw), port)
  {
    if port !in sw.ingress {
      var _ := IngressInitVp(sw, port);
    }
    if port !in sw.egress {
      var _ := EgressInitVp(sw, port);
    }
  }

  /** A node that was there before the rows it lists. */
  ghost predicate NodeBeforeRows(t: Tables, sh: Shape, port: nat) {
    || (port in t.ingress && PortKeys(t.pgs.Keys, port) == {})
    || (port in t.egress && NoHqos(t.queues, t.sgs, port) && sh.total > 0)
  }

  /** Where there is nothing to list, a node lists nothing. */
  ghost predicate NothingListed(t: Tables, port: nat) {
    && (port in t.ingress && PortKeys(t.pgs.Keys, port) == {} ==> IngressMatches(t, port))
    && (port in t.egress && NoHqos(t.queues, t.sgs, port) ==> EgressOk(t, port))
  }

  /** What a create notification leaves when no generator runs dry. */
  ghost predicate Creates(t: Tables, u: Tables, sh: Shape, port: nat) {
    && HqosAfterCreate(t, u, sh, port, false) && PgsAfterCreate(t, u, port, false)
    && NodesAfterCreate(u.(ingress := t.ingress, egress := t.egress), u, port)
  }

  /** The nodes match afterwards exactly when they did before and neither was there before its rows. */
  lemma CreatedNodesMatch(t: Tables, u: Tables, sh: Shape, port: nat)
    requires Creates(t, u, sh, port) && NothingListed(t, port)
    ensures NodesMatch(u, port) <==> NodesMatch(t, port) && !NodeBeforeRows(t, sh, port)
  {
    CreatedIngressMatches(t, u, sh, port);
    CreatedEgressMatches(t, u, sh, port);
  }

  lemma CreatedIngressMatches(t: Tables, u: Tables, sh: Shape, port: nat)
    requires Creates(t, u, sh, port) && NothingListed(t, port)
    ensures IngressMatches(u, port) <==>
              IngressMatches(t, port) && !(port in t.ingress && PortKeys(t.pgs.Keys, port) == {})
  {
    if port in t.ingress && PortKeys(t.pgs.Keys, port) == {} {
      EmptyPgListGoesStale(t.pgs, u.pgs, port, t.ingress[port].pgIds);
    }
  }

  lemma CreatedEgressMatches(t: Tables, u: Tables, sh: Shape, port: nat)
    requires Creates(t, u, sh, port) && NothingListed(t, port)
    ensures EgressOk(u, port) <==>
              EgressOk(t, port) && !(port in t.egress && NoHqos(t.queues, t.sgs, port) && sh.total > 0)
  {
    if port in t.egress && NoHqos(t.queues, t.sgs, port) {
      if sh.total > 0 {
        EmptyQueueListGoesStale(t.queues, u.queues, port, sh, t.egress[port]);
      } else {
        NoQueuesStill(t.queues, u.queues, port, sh, t.egress[port]);
      }
    }
  }

  lemma NoQueuesStill(before: map<Key, Queue>, after: map<Key, Queue>, port: nat, sh: Shape, node: PortEgress)
    requires PortKeys(before.Keys, port) == {} && PortKeys(after.Keys, port) == VpKeys(port, sh, 0)
    ensures EgressMatches(before, port, node) ==> EgressMatches(after, port, node)
  {
    assert VpKeys(port, sh, 0) == {};
    forall k: Key | k.port == port ensures k !in before && k !in after {
      NoKeyOnPort(before.Keys, port, k);
      NoKeyOnPort(after.Keys, port, k);
    }
    SameQueuesSameLists(before, after, port, node);
  }

  /** A port that has all its rows is left alone. */
  lemma RowsStay(t: Tables, u: Tables, sh: Shape, port: nat, dry: bool)
    requires HqosUp(t.queues, t.sgs, sh, port) && PgsUp(t.pgs, port)
    requires HqosAfterCreate(t, u, sh, port, dry)
    ensures u.queues == t.queues && u.queueIds == t.queueIds && u.sgs == t.sgs
    ensures PortKeys(t.pgs.Keys, port) != {}
  {
    assert Key(port, 0, 0) in VpPgs(port, VP_PGS);
    if sh.total > 0 {
      assert VpKey(port, sh, 0) in VpKeys(port, sh, sh.total);
    } else if sh.ucast > 0 {
      assert FormatSgId(port, sh.leaf, 0) in VpGroups(port, sh, sh.ucast);
    }
  }

  /**
   nas_qos_if_create_notify for a virtual port. A ready port stays exactly as it is. What happens to
   any other port, unless a generator runs dry, is described by Creates: see CreatedNodesMatch. To the
   tree of queues and groups it is the creation HqosSound.CreateVpKeepsForest speaks of.
   */
  method IfCreateNotify(sw: QosSwitch, port: nat) returns (dry: bool)
    requires PackableShape(port, ShapeOf(sw)) && IdsOk(TablesOf(sw))
    modifies sw
    ensures IdsOk(TablesOf(sw)) && OthersSame(old(TablesOf(sw)), TablesOf(sw), port)
    ensures HqosVirtual.CreatesVp(old(HqosOperations.TreeOf(sw)), HqosOperations.TreeOf(sw), ShapeOf(sw), port)
    ensures !dry ==> Creates(old(TablesOf(sw)), TablesOf(sw), ShapeOf(sw), port)
    ensures Ready(old(TablesOf(sw)), ShapeOf(sw), port) ==> TablesOf(sw) == old(TablesOf(sw))
    ensures dry ==> SomeGeneratorFull(TablesOf(sw))
    ensures sw.initialized == old(sw.initialized) + {port}
  {
    ghost var t := TablesOf(sw);
    var dryHqos := CreateHqos(sw, port);
    ghost var t1 := TablesOf(sw);
    var dryPgs := CreatePgs(sw, port);
    ghost var t2 := TablesOf(sw);
    CreateNodes(sw, port);
    sw.initialized := sw.initialized + {port};
    dry := dryHqos || dryPgs;
    CreateEffect(t, t1, t2, TablesOf(sw), ShapeOf(sw), port, dryHqos, dryPgs);
  }

  /** The three parts of a create notification, put together. */
  lemma CreateEffect(t: Tables, t1: Tables, t2: Tables, u: Tables, sh: Shape, port: nat, dryHqos: bool, dryPgs: bool)
    requires HqosAfterCreate(t, t1, sh, port, dryHqos) && PgsAfterCreate(t1, t2, port, dryPgs)
    requires NodesAfterCreate(t2, u, port)
    requires t1 == t.(queues := t1.queues, queueIds := t1.queueIds, sgs := t1.sgs)
    requires t2 == t1.(pgs := t2.pgs, pgIds := t2.pgIds) && u == t2.(ingress := u.ingress, egress := u.egress)
    ensures OthersSame(t, u, port)
    ensures !dryHqos && !dryPgs ==> Creates(t, u, sh, port)
    ensures Ready(t, sh, port) ==> u == t
  {
    ElsewhereSame(t, u, port);
    if Ready(t, sh, port) {
      RowsStay(t, t1, sh, port, dryHqos);
    }
  }

  ghost predicate SomeGeneratorFull(t: Tables) { QUEUE_ID_MAX <= |t.queueIds| || PG_ID_MAX <= |t.pgIds| }

  // ---- Dissociation and deletion ----

  /** nas_qos_port_queue_disassociation */
  method QueueDissociate(sw: QosSwitch, port: nat)
    modifies sw`queues
    ensures QueuesReset(old(sw.queues), sw.queues, port)
  {
    var order := Iterate(sw.queues.Keys);
    var i := 0;
    while i < |order|
      invariant 0 <= i <= |order|
      invariant sw.queues.Keys == old(sw.queues).Keys
      invariant forall j :: i <= j < |order| ==> sw.queues[order[j]] == old(sw.queues)[order[j]]
      invariant forall j :: 0 <= j < i ==>
                  sw.queues[order[j]] ==
                  if order[j].port == port then old(sw.queues)[order[j]].(ndi := NDI_NULL, created := false)
                  else old(sw.queues)[order[j]]
    {
      var k := order[i];
      assert forall j :: 0 <= j < |order| && j != i ==> order[j] != k by {
        assert forall j :: 0 <= j < i ==> Less(order[j], order[i]);
        assert forall j :: i < j < |order| ==> Less(order[i], order[j]);
      }
      if k.port == port {
        sw.queues := sw.queues[k := sw.queues[k].(ndi := NDI_NULL, created := false)];
      }
      i := i + 1;
    }
    assert forall k :: k in sw.queues ==> k in order;
  }

  /** nas_qos_port_scheduler_group_disassociation: only the groups right above the queues. */
  method SgDissociate(sw: QosSwitch, port: nat)
    modifies sw`sgs
    ensures SgsReset(old(sw.sgs), sw.sgs, port, sw.leafLevel)
  {
    var todo := sw.sgs.Keys;
    while todo != {}
      invariant todo <= sw.sgs.Keys == old(sw.sgs).Keys
      invariant forall s :: s in todo ==> sw.sgs[s] == old(sw.sgs)[s]
      invariant forall s :: s in sw.sgs && s !in todo ==>
                  sw.sgs[s] == if old(sw.sgs)[s].port == port && old(sw.sgs)[s].level == sw.leafLevel
                               then old(sw.sgs)[s].(ndi := NDI_NULL, created := false) else old(sw.sgs)[s]
    {
      var s :| s in todo;
      if sw.sgs[s].port == port && sw.sgs[s].level == sw.leafLevel {
        sw.sgs := sw.sgs[s := sw.sgs[s].(ndi := NDI_NULL, created := false)];
      }
      todo := todo - {s};
    }
  }

  lemma ResetKeepsQueues(before: map<Key, Queue>, after: map<Key, Queue>, inUse: set<nat>, port: nat)
    requires QueuesReset(before, after, port)
    ensures SameQueueIds(before, after, port) && forall p: nat :: p != port ==> SameQueues(before, after, p)
    ensures QueueIdsOk(before, inUse) ==> QueueIdsOk(after, inUse)
  {}

  lemma ResetKeepsSgs(before: map<NasId, SchedGroup>, after: map<NasId, SchedGroup>, inUse: set<nat>, port: nat,
                      leaf: nat)
    requires SgsReset(before, after, port, leaf)
    ensures SgsOfPort(after, port) == SgsOfPort(before, port)
    ensures forall p: nat :: p != port ==> SameSgs(before, after, p)
    ensures SgDiscipline(before, inUse) ==> SgDiscipline(after, inUse)
  {}

  /** The port has its eight unbound groups, under ids newly taken once the earlier ones were given back. */
  ghost predicate PgsRenewed(before: map<Key, PriorityGroup>, ids: set<nat>, after: map<Key, PriorityGroup>,
                             ids': set<nat>, port: nat) {
    PgsUp(after, port) && ids' == ids - PgIdsOfPort(before, port) + PgIdsOfPort(after, port)
  }

  /** Deletes the port's priority groups and makes new ones. */
  method RenewPgs(sw: QosSwitch, port: nat) returns (dry: bool)
    requires PgIdsOk(sw.pgs, sw.pgIds)
    modifies sw`pgs, sw`pgIds
    ensures PgIdsOk(sw.pgs, sw.pgIds) && PgsElsewhere(old(sw.pgs), sw.pgs, port)
    ensures !dry ==> PgsRenewed(old(sw.pgs), old(sw.pgIds), sw.pgs, sw.pgIds, port)
    ensures dry ==> PG_ID_MAX <= |sw.pgIds|
  {
    PgDeletionKeepsIds(sw.pgs, sw.pgIds, port);
    sw.DeletePgByIfindex(port);
    ghost var mid := sw.pgs;
    PortCleared(old(sw.pgs), mid, port);
    var ok, n := PgInitVp(sw, port);
    NoKeyOnPort(mid.Keys, port, Key(port, n, 0));
    PgsRefilled(old(sw.pgs), mid, sw.pgs, port, n);
    dry := !ok;
  }

  lemma PgsRefilled(before: map<Key, PriorityGroup>, mid: map<Key, PriorityGroup>, after: map<Key, PriorityGroup>,
                    port: nat, n: nat)
    requires PgsElsewhere(before, mid, port) && PortKeys(mid.Keys, port) == {} && PgsFilled(mid, after, port, n)
    ensures PgsElsewhere(before, after, port) && NewPgIds(mid, after) == PgIdsOfPort(after, port)
    ensures n == VP_PGS ==> PgsUp(after, port)
  {
    PgsFilledPort(mid, after, port, n);
    forall p: nat | p != port ensures SamePgs(before, after, p) {
      assert SamePgs(before, mid, p) && SamePgs(mid, after, p);
    }
  }

  lemma PortCleared(before: map<Key, PriorityGroup>, mid: map<Key, PriorityGroup>, port: nat)
    requires mid == before - PortKeys(before.Keys, port)
    ensures PortKeys(mid.Keys, port) == {} && PgsElsewhere(before, mid, port)
  {}

  method RenewNodes(sw: QosSwitch, port: nat)
    modifies sw`ingress, sw`egress
    ensures port in sw.ingress && port in sw.egress && NodesMatch(TablesOf(sw), port)
    ensures NodesElsewhere(old(sw.ingress), sw.ingress, port) && NodesElsewhere(old(sw.egress), sw.egress, port)
  {
    sw.ingress := sw.ingress - {port};
    var _ := IngressInitVp(sw, port);
    sw.egress := sw.egress - {port};
    var _ := EgressInitVp(sw, port);
  }

  /**
   What dissociation leaves: the same queues and groups with their hardware side cleared, new priority
   groups, and two new nodes that list what there is.
   */
  ghost predicate Dissociates(t: Tables, u: Tables, sh: Shape, port: nat, dry: bool) {
    && QueuesReset(t.queues, u.queues, port) && SgsReset(t.sgs, u.sgs, port, sh.leaf)
    && u.queueIds == t.queueIds && u.sgIds == t.sgIds
    && PgsElsewhere(t.pgs, u.pgs, port) && (!dry ==> PgsRenewed(t.pgs, t.pgIds, u.pgs, u.pgIds, port))
    && NodesElsewhere(t.ingress, u.ingress, port) && NodesElsewhere(t.egress, u.egress, port)
    && port in u.ingress && port in u.egress && NodesMatch(u, port)
  }

  lemma DissociateEffect(t: Tables, u: Tables, sh: Shape, port: nat, dry: bool)
    requires Dissociates(t, u, sh, port, dry)
    ensures OthersSame(t, u, port)
    ensures PortKeys(u.queues.Keys, port) == PortKeys(t.queues.Keys, port)
            && SgsOfPort(u.sgs, port) == SgsOfPort(t.sgs, port)
    ensures !dry && Ready(t, sh, port) ==> Ready(u, sh, port)
  {
    ResetKeepsQueues(t.queues, u.queues, {}, port);
    ResetKeepsSgs(t.sgs, u.sgs, {}, port, sh.leaf);
    ElsewhereSame(t, u, port);
  }

  /**
   nas_qos_if_set_notify, dissociation. Whatever the port held, and even if a generator runs dry, its
   two nodes are there afterwards and list its current queues and priority groups. To the tree of queues
   and groups it is the unbinding HqosSound.UnbindKeepsForestExact speaks of.
   */
  method IfDissociateNotify(sw: QosSwitch, port: nat) returns (dry: bool)
    requires IdsOk(TablesOf(sw))
    modifies sw`queues, sw`sgs, sw`pgs, sw`pgIds, sw`ingress, sw`egress
    ensures IdsOk(TablesOf(sw)) && OthersSame(old(TablesOf(sw)), TablesOf(sw), port)
    ensures Dissociates(old(TablesOf(sw)), TablesOf(sw), ShapeOf(sw), port, dry)
    ensures HqosVirtual.Unbinds(old(HqosOperations.TreeOf(sw)), HqosOperations.TreeOf(sw), port, sw.leafLevel)
    ensures !dry && Ready(old(TablesOf(sw)), ShapeOf(sw), port) ==> Ready(TablesOf(sw), ShapeOf(sw), port)
    ensures dry ==> PG_ID_MAX <= |sw.pgIds|
  {
    ghost var t := TablesOf(sw);
    dry := RenewPgs(sw, port);
    QueueDissociate(sw, port);
    SgDissociate(sw, port);
    RenewNodes(sw, port);
    ResetKeepsQueues(t.queues, sw.queues, sw.queueIds, port);
    ResetKeepsSgs(t.sgs, sw.sgs, sw.sgIds, port, sw.leafLevel);
    DissociateEffect(t, TablesOf(sw), ShapeOf(sw), port, dry);
  }

  lemma DeleteEffect(t: Tables, u: Tables, port: nat)
    requires u.queues == t.queues - PortKeys(t.queues.Keys, port) && u.sgs == t.sgs - SgsOfPort(t.sgs, port)
    requires u.pgs == t.pgs - PortKeys(t.pgs.Keys, port) && u.ingress == t.ingress - {port}
             && u.egress == t.egress - {port}
    ensures Absent(u, port) && OthersSame(t, u, port)
  {}

  /**
   nas_qos_if_delete_notify: nothing of the port is left, nothing else is touched, and the tree of
   queues and groups is the one HqosSteps.DeletePortKeepsIffInside speaks of.
   */
  method IfDeleteNotify(sw: QosSwitch, port: nat)
    requires IdsOk(TablesOf(sw))
    modifies sw
    ensures IdsOk(TablesOf(sw)) && Absent(TablesOf(sw), port) && OthersSame(old(TablesOf(sw)), TablesOf(sw), port)
    ensures HqosOperations.TreeOf(sw) == HqosForest.DeletePort(old(HqosOperations.TreeOf(sw)), port)
    ensures sw.pgIds == old(sw.pgIds) - PgIdsOfPort(old(sw.pgs), port)
    ensures sw.initialized == old(sw.initialized) - {port}
  {
    ghost var t := TablesOf(sw);
    QueueDeletionKeepsIds(sw.queues, sw.queueIds, port);
    SgDeletionKeepsIds(sw.sgs, sw.sgIds, port);
    PgDeletionKeepsIds(sw.pgs, sw.pgIds, port);
    sw.DeleteQueueByIfindex(port);
    sw.DeleteSgByIfindex(port);
    sw.ingress := sw.ingress - {port};
    sw.egress := sw.egress - {port};
    sw.DeletePgByIfindex(port);
    sw.initialized := sw.initialized - {port};
    DeleteEffect(t, TablesOf(sw), port);
  }

  // ---- Runs ----

  datatype Event = Created(port: nat) | Dissociated(port: nat) | Deleted(port: nat)

  /**
   The states of a virtual port: nothing there; dissociated before it was created, with only priority
   groups and nodes; fully up; and fully there with an egress node that does not list its queues.
   */
  datatype Phase = Gone | Bare | Up | Stale

  ghost predicate InPhase(t: Tables, sh: Shape, port: nat, phase: Phase) {
    match phase
    case Gone => Absent(t, port)
    case Bare => HasNodes(t, port) && NoHqos(t.queues, t.sgs, port) && NodesMatch(t, port)
    case Up => Ready(t, sh, port)
    case Stale =>
      && HasNodes(t, port) && HqosUp(t.queues, t.sgs, sh, port) && sh.total > 0
      && IngressMatches(t, port) && !EgressOk(t, port)
  }

  ghost predicate HasNodes(t: Tables, port: nat) {
    PgsUp(t.pgs, port) && port in t.ingress && port in t.egress
  }

  function Next(sh: Shape, phase: Phase, e: Event): Phase {
    match e
    case Created(_) => (match phase case Gone => Up case Bare => (if sh.total > 0 then Stale else Up) case _ => phase)
    case Dissociated(_) => if phase.Gone? || phase.Bare? then Bare else Up
    case Deleted(_) => Gone
  }

  /** The phase of a port after a run that it was not there before. */
  function PhaseOf(sh: Shape, events: seq<Event>, port: nat): Phase {
    if events == [] then Gone
    else
      var before, e := PhaseOf(sh, events[..|events| - 1], port), events[|events| - 1];
      if e.port == port then Next(sh, before, e) else before
  }

  /** Reading the phases: a port's nodes match its rows in all but one. */
  lemma OnlyStaleMismatches(t: Tables, sh: Shape, port: nat, phase: Phase)
    requires InPhase(t, sh, port, phase)
    ensures NodesMatch(t, port) <==> phase != Stale
  {}

  /**
   Dissociating a port that is not there, then creating it, leaves it stale, until it is dissociated
   again or deleted.
   */
  lemma DissociatedFirstGoesStale(sh: Shape, port: nat)
    requires sh.total > 0
    ensures PhaseOf(sh, [Dissociated(port), Created(port)], port) == Stale
    ensures Next(sh, Stale, Created(port)) == Stale && Next(sh, Stale, Dissociated(port)) == Up
  {
    PhaseOfMore(sh, [], Dissociated(port), port);
    PhaseOfMore(sh, [Dissociated(port)], Created(port), port);
    assert [] + [Dissociated(port)] == [Dissociated(port)];
    assert [Dissociated(port)] + [Created(port)] == [Dissociated(port), Created(port)];
  }

  lemma PhaseOfMore(sh: Shape, events: seq<Event>, e: Event, port: nat)
    ensures PhaseOf(sh, events + [e], port) ==
            if e.port == port then Next(sh, PhaseOf(sh, events, port), e) else PhaseOf(sh, events, port)
  {
    assert (events + [e])[..|events|] == events;
  }

  /** The ports created and not deleted since. */
  function Existing(events: seq<Event>): set<nat> {
    if events == [] then {}
    else
      var before := Existing(events[..|events| - 1]);
      match events[|events| - 1]
      case Created(port) => before + {port}
      case Dissociated(_) => before
      case Deleted(port) => before - {port}
  }

  /** As long as only existing ports are dissociated, existing ports are fully up and the others gone. */
  lemma {:induction false} SensibleRunsAreUp(sh: Shape, events: seq<Event>, port: nat)
    requires forall i :: 0 <= i < |events| && events[i].Dissociated? ==> events[i].port in Existing(events[..i])
    ensures PhaseOf(sh, events, port) == if port in Existing(events) then Up else Gone
  {
    if events != [] {
      var n := |events| - 1;
      var front := events[..n];
      forall i | 0 <= i < n ensures front[i] == events[i] && front[..i] == events[..i] {}
      SensibleRunsAreUp(sh, front, port);
    }
  }

  lemma CreatePhase(t: Tables, u: Tables, sh: Shape, port: nat, phase: Phase)
    requires InPhase(t, sh, port, phase) && Creates(t, u, sh, port)
    ensures InPhase(u, sh, port, Next(sh, phase, Created(port)))
  {
    match phase {
      case Gone =>
      case Bare =>
        CreatedIngressMatches(t, u, sh, port);
        CreatedEgressMatches(t, u, sh, port);
        assert Key(port, 0, 0) in VpPgs(port, VP_PGS);
      case Up => RowsStay(t, u, sh, port, false);
      case Stale => RowsStay(t, u, sh, port, false);
    }
  }

  lemma DissociatePhase(t: Tables, u: Tables, sh: Shape, port: nat, phase: Phase)
    requires InPhase(t, sh, port, phase) && Dissociates(t, u, sh, port, false)
    ensures InPhase(u, sh, port, Next(sh, phase, Dissociated(port)))
  {
    DissociateEffect(t, u, sh, port, false);
  }

  /** Ids are in order, and every port is in the phase its history says. */
  ghost predicate InPhases(t: Tables, sh: Shape, ports: set<nat>, events: seq<Event>) {
    IdsOk(t) && forall p :: p in ports ==> InPhase(t, sh, p, PhaseOf(sh, events, p))
  }

  lemma SamePhase(t: Tables, u: Tables, sh: Shape, port: nat, phase: Phase)
    requires SamePort(t, u, port) && InPhase(t, sh, port, phase)
    ensures InPhase(u, sh, port, phase)
  {
    SamePortSameState(t, u, sh, port);
    SamePortSameNodes(t, u, port);
    SamePortSameHqos(t, u, sh, port);
  }

  lemma PhasesMove(t: Tables, u: Tables, sh: Shape, ports: set<nat>, events: seq<Event>, e: Event)
    requires InPhases(t, sh, ports, events) && OthersSame(t, u, e.port) && IdsOk(u)
    requires InPhase(u, sh, e.port, Next(sh, PhaseOf(sh, events, e.port), e))
    ensures InPhases(u, sh, ports, events + [e])
  {
    forall p | p in ports ensures InPhase(u, sh, p, PhaseOf(sh, events + [e], p)) {
      PhaseOfMore(sh, events, e, p);
      if p != e.port {
        SamePhase(t, u, sh, p, PhaseOf(sh, events, p));
      }
    }
  }

  /** One notification. */
  method Notify(sw: QosSwitch, e: Event, ghost ports: set<nat>, ghost events: seq<Event>) returns (dry: bool)
    requires e.port in ports && PackableShape(e.port, ShapeOf(sw)) && InPhases(TablesOf(sw), ShapeOf(sw), ports, events)
    modifies sw
    ensures !dry ==> InPhases(TablesOf(sw), ShapeOf(sw), ports, events + [e])
    ensures dry ==> IdsOk(TablesOf(sw)) && SomeGeneratorFull(TablesOf(sw))
  {
    ghost var t, phase := TablesOf(sw), PhaseOf(ShapeOf(sw), events, e.port);
    dry := false;
    match e {
      case Created(port) =>
        dry := IfCreateNotify(sw, port);
        if !dry {
          CreatePhase(t, TablesOf(sw), ShapeOf(sw), port, phase);
        }
      case Dissociated(port) =>
        dry := IfDissociateNotify(sw, port);
        if !dry {
          DissociatePhase(t, TablesOf(sw), ShapeOf(sw), port, phase);
        }
      case Deleted(port) =>
        IfDeleteNotify(sw, port);
    }
    if !dry {
      PhasesMove(t, TablesOf(sw), ShapeOf(sw), ports, events, e);
    }
  }

  /**
   Over every run of create, dissociation and delete notifications on virtual ports, in any order and
   up to the point where a generator runs dry, each port is in exactly the phase its history says;
   with OnlyStaleMismatches, that tells exactly when its nodes match its rows.
   */
  method RunNotifications(sw: QosSwitch, events: seq<Event>, ghost ports: set<nat>) returns (done: nat)
    requires forall i :: 0 <= i < |events| ==> events[i].port in ports
    requires forall p :: p in ports ==> PackableShape(p, ShapeOf(sw)) && Absent(TablesOf(sw), p)
    requires IdsOk(TablesOf(sw))
    modifies sw
    ensures done <= |events|
    ensures done == |events| ==> InPhases(TablesOf(sw), ShapeOf(sw), ports, events)
    ensures done < |events| ==> IdsOk(TablesOf(sw)) && SomeGeneratorFull(TablesOf(sw))
  {
    done := 0;
    while done < |events|
      invariant 0 <= done <= |events|
      invariant InPhases(TablesOf(sw), ShapeOf(sw), ports, events[..done])
    {
      assert events[..done] + [events[done]] == events[..done + 1];
      var dry := Notify(sw, events[done], ports, events[..done]);
      if dry {
        return;
      }
      done := done + 1;
    }
    assert events[..done] == events;
  }
}
