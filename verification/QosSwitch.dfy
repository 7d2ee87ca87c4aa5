/** The rows of the switch tables: queues, scheduler groups, priority groups and port nodes. */
module QosRows {
  import opened NasIds

  type NdiId = nat
  const NDI_NULL: NdiId := 0

  // Queue types.
  const ANYCAST: nat := 1   // BASE_QOS_QUEUE_TYPE_NONE
  const UCAST: nat := 2
  const MULTICAST: nat := 3

  datatype Queue = Queue(id: NasId, parent: NasId, ndi: NdiId, created: bool, shadows: seq<NdiId>)
  {
    /** nas_qos_queue::ndi_obj_id */
    function NdiObjId(): NdiId {
      if created then ndi else NDI_NULL
    }
  }

  datatype SchedGroup = SchedGroup(port: nat, level: nat, profile: NasId, maxChild: nat, parent: NasId,
                                   children: seq<NasId>, ndi: NdiId, created: bool)
  {
    /** nas_qos_scheduler_group::ndi_obj_id */
    function NdiObjId(): NdiId {
      if created then ndi else NDI_NULL
    }
  }

  datatype PriorityGroup = PriorityGroup(id: NasId, bufferProfile: NasId, ndi: NdiId, created: bool)

  datatype PortIngress = PortIngress(pgIds: seq<NasId>)

  datatype PortEgress = PortEgress(queueIds: seq<NasId>, ucast: nat, mcast: nat)
}

/** The switch object: its tables, their id generators, and the operations that touch only them. */
module QosSwitches {
  import opened Wrappers
  import opened NasIds
  import opened IdGenerator
  import opened OrderedKeys
  import opened QosRows

  const QUEUE_ID_MAX: nat := 0xFFFF
  const SG_ID_MAX: nat := 0xFFFF
  const PG_ID_MAX: nat := 0x7FFF

  // ---- Id discipline of the tables ----

  /** Every queue row holds an id of its own that its generator counts as in use. */
  ghost predicate QueueIdsOk(queues: map<Key, Queue>, inUse: set<nat>) {
    && (forall raw :: raw in inUse ==> raw <= QUEUE_ID_MAX)
    && (forall k :: k in queues ==>
          QueueRawOf(queues[k].id) in inUse && queues[k].id == QueueIdOf(QueueRawOf(queues[k].id)))
    && (forall k, k' :: k in queues && k' in queues && queues[k].id == queues[k'].id ==> k == k')
  }

  /** An id with the shape of a packed one. */
  predicate Formed(id: NasId) {
    id == FormatSgId(SgPort(id), SgLevel(id), SgIndex(id))
  }

  /** Every scheduler-group id is either packed or one its generator counts as in use. */
  ghost predicate SgIdsOk(sgs: map<NasId, SchedGroup>, inUse: set<nat>) {
    && (forall raw :: raw in inUse ==> raw <= SG_ID_MAX)
    && (forall s :: s in sgs ==> Formed(s) || (SgRawOf(s) in inUse && s == SgIdOf(SgRawOf(s))))
  }

  /** An id with the shape of a packed one belongs to the port packed into it. */
  ghost predicate SgsAtHome(sgs: map<NasId, SchedGroup>) {
    forall s :: s in sgs && Formed(s) ==> sgs[s].port == SgPort(s)
  }

  ghost predicate PgIdsOk(pgs: map<Key, PriorityGroup>, inUse: set<nat>) {
    && (forall k :: k in pgs ==> pgs[k].id in inUse)
    && (forall k, k' :: k in pgs && k' in pgs && pgs[k].id == pgs[k'].id ==> k == k')
  }

  /** A row under an id just taken from the generator. */
  lemma NewQueueKeepsIds(queues: map<Key, Queue>, inUse: set<nat>, key: Key, row: Queue, raw: nat)
    requires QueueIdsOk(queues, inUse) && IsFree(inUse, QUEUE_ID_MAX, raw) && row.id == QueueIdOf(raw) && key !in queues
    ensures QueueIdsOk(queues[key := row], inUse + {raw})
  {
    ReleaseInvertsAlloc(raw);
  }

  // ---- What a port deletion leaves ----

  ghost function QueueIdsOfPort(queues: map<Key, Queue>, port: nat): set<nat> {
    set k | k in queues && k.port == port :: QueueRawOf(queues[k].id)
  }

  ghost function SgsOfPort(sgs: map<NasId, SchedGroup>, port: nat): set<NasId> {
    set s | s in sgs && sgs[s].port == port
  }

  ghost function SgIdsOfPort(sgs: map<NasId, SchedGroup>, port: nat): set<nat> {
    set s | s in sgs && sgs[s].port == port :: SgRawOf(s)
  }

  ghost function PgIdsOfPort(pgs: map<Key, PriorityGroup>, port: nat): set<nat> {
    set k | k in pgs && k.port == port :: pgs[k].id
  }

  /**
   Deleting a port's queues releases ids that were all in use, and none that a queue of another
   port holds: the discipline survives.
   */
  lemma QueueDeletionKeepsIds(queues: map<Key, Queue>, inUse: set<nat>, port: nat)
    requires QueueIdsOk(queues, inUse)
    ensures QueueIdsOfPort(queues, port) <= inUse
    ensures QueueIdsOk(queues - PortKeys(queues.Keys, port), inUse - QueueIdsOfPort(queues, port))
  {}

  /**
   Deleting a port's scheduler groups hands every id to the generator, packed ones included; the
   packed ones name nothing in use, so exactly the generated ids of the port come free.
   */
  lemma SgDeletionKeepsIds(sgs: map<NasId, SchedGroup>, inUse: set<nat>, port: nat)
    requires SgIdsOk(sgs, inUse)
    ensures forall s :: s in SgsOfPort(sgs, port) && Formed(s) ==> SgRawOf(s) !in inUse
    ensures SgIdsOk(sgs - SgsOfPort(sgs, port), inUse - SgIdsOfPort(sgs, port))
  {
    forall s | s in sgs && Formed(s) ensures SgRawOf(s) > SG_ID_MAX {
      FieldBounds(s);
      ReleaseAutoFormed(SgPort(s), SgLevel(s), SgIndex(s));
    }
    forall s | s in sgs && sgs[s].port != port && !Formed(s)
      ensures SgRawOf(s) !in SgIdsOfPort(sgs, port)
    {
      if s' :| s' in sgs && sgs[s'].port == port && SgRawOf(s') == SgRawOf(s) {
        assert false;
      }
    }
  }

  lemma PgDeletionKeepsIds(pgs: map<Key, PriorityGroup>, inUse: set<nat>, port: nat)
    requires PgIdsOk(pgs, inUse)
    ensures PgIdsOfPort(pgs, port) <= inUse
    ensures PgIdsOk(pgs - PortKeys(pgs.Keys, port), inUse - PgIdsOfPort(pgs, port))
  {}

  // ---- Port ranges of an ordered table ----

  function Min(a: nat, b: nat): nat { if a < b then a else b }

  ghost predicate RowsAlong(queues: map<Key, Queue>, order: seq<Key>, list: seq<Queue>) {
    |list| <= |order| && forall j :: 0 <= j < |list| ==> order[j] in queues && list[j] == queues[order[j]]
  }

  ghost predicate QueueIdsAlong(queues: map<Key, Queue>, order: seq<Key>, list: seq<NasId>) {
    |list| <= |order| && forall j :: 0 <= j < |list| ==> order[j] in queues && list[j] == queues[order[j]].id
  }

  ghost predicate PgIdsAlong(pgs: map<Key, PriorityGroup>, order: seq<Key>, list: seq<NasId>) {
    |list| <= |order| && forall j :: 0 <= j < |list| ==> order[j] in pgs && list[j] == pgs[order[j]].id
  }

  /** The first rows of the port in key order, at most `count`. */
  ghost predicate FirstRows(queues: map<Key, Queue>, port: nat, count: nat, list: seq<Queue>) {
    exists order ::
      IsOrderOf(order, PortKeys(queues.Keys, port)) && RowsAlong(queues, order, list) && |list| == Min(count, |order|)
  }

  ghost predicate FirstQueueIds(queues: map<Key, Queue>, port: nat, count: nat, list: seq<NasId>) {
    exists order ::
      && IsOrderOf(order, PortKeys(queues.Keys, port)) && QueueIdsAlong(queues, order, list)
      && |list| == Min(count, |order|)
  }

  ghost predicate FirstPgIds(pgs: map<Key, PriorityGroup>, port: nat, count: nat, list: seq<NasId>) {
    exists order ::
      IsOrderOf(order, PortKeys(pgs.Keys, port)) && PgIdsAlong(pgs, order, list) && |list| == Min(count, |order|)
  }

  ghost function MatchingKind(keys: set<Key>, kind: nat): set<Key> {
    set k | k in keys && (kind == ANYCAST || k.kind == kind)
  }

  ghost function CountKind(s: seq<Key>, kind: nat): nat {
    if s == [] then 0
    else CountKind(s[..|s| - 1], kind) + (if kind == ANYCAST || s[|s| - 1].kind == kind then 1 else 0)
  }

  lemma CountKindStep(order: seq<Key>, lo: nat, i: nat, kind: nat)
    requires lo <= i < |order|
    ensures CountKind(order[lo..i + 1], kind)
         == CountKind(order[lo..i], kind) + (if kind == ANYCAST || order[i].kind == kind then 1 else 0)
  {
    assert order[lo..i + 1][..i - lo] == order[lo..i];
  }

  lemma {:induction false} CountKindIsCardinality(order: seq<Key>, keys: set<Key>, kind: nat)
    requires IsOrderOf(order, keys)
    ensures CountKind(order, kind) == |MatchingKind(keys, kind)|
  {
    if order == [] {
      assert MatchingKind(keys, kind) == {};
    } else {
      var last := order[|order| - 1];
      var front := order[..|order| - 1];
      forall k ensures k in front <==> k in keys - {last} {
        assert k in order <==> k == last || k in front;
      }
      CountKindIsCardinality(front, keys - {last}, kind);
      assert last in order;
      MatchingWithout(keys, last, kind);
    }
  }

  lemma MatchingWithout(keys: set<Key>, last: Key, kind: nat)
    requires last in keys
    ensures |MatchingKind(keys, kind)|
         == |MatchingKind(keys - {last}, kind)| + (if kind == ANYCAST || last.kind == kind then 1 else 0)
  {
    var rest := MatchingKind(keys - {last}, kind);
    assert MatchingKind(keys, kind) == if kind == ANYCAST || last.kind == kind then rest + {last} else rest;
  }

  class QosSwitch {
    const ucastQueues: nat
    const totalQueues: nat
    const leafLevel: nat     // max_sched_group_level - 1

    var queues: map<Key, Queue>
    var queueIds: set<nat>
    var sgs: map<NasId, SchedGroup>
    var sgIds: set<nat>
    var pgs: map<Key, PriorityGroup>
    var pgIds: set<nat>
    var ingress: map<nat, PortIngress>
    var egress: map<nat, PortEgress>
    var initialized: set<nat>

    constructor (ucast: nat, total: nat, leaf: nat)
      ensures ucastQueues == ucast && totalQueues == total && leafLevel == leaf
      ensures queues == map[] && queueIds == {} && sgs == map[] && sgIds == {}
      ensures pgs == map[] && pgIds == {} && ingress == map[] && egress == map[] && initialized == {}
    {
      ucastQueues, totalQueues, leafLevel := ucast, total, leaf;
      queues, queueIds, sgs, sgIds, pgs, pgIds := map[], {}, map[], {}, map[], {};
      ingress, egress, initialized := map[], map[], {};
    }

    /** get_port_queues: the rows of a port, at most `count` of them. */
    method GetPortQueues(port: nat, count: nat) returns (list: seq<Queue>)
      ensures FirstRows(queues, port, count, list)
    {
      var order := Iterate(queues.Keys);
      var lo := LowerBound(order, Key(port, 0, 0));
      var i := lo;
      list := [];
      while i < |order|
        invariant lo <= i <= |order|
        invariant forall j :: lo <= j < i ==> order[j].port == port
        invariant |list| == Min(count, i - lo)
        invariant forall j {:trigger list[j]} :: 0 <= j < |list| ==> list[j] == queues[order[lo + j]]
      {
        ScanStaysOnPort(order, port, lo, i);
        if order[i].port > port {
          break;
        }
        if |list| < count {
          list := list + [queues[order[i]]];
        }
        i := i + 1;
      }
      ghost var range := order[lo..i];
      ScanIsFilter(queues.Keys, order, port, lo, i);
      assert RowsAlong(queues, range, list) && |list| == Min(count, |range|);
    }

    /** get_port_queue_ids: the number of queues of the port, and the ids that fit in `count`. */
    method GetPortQueueIds(port: nat, count: nat) returns (n: nat, list: seq<NasId>)
      ensures n == |PortKeys(queues.Keys, port)| && FirstQueueIds(queues, port, count, list)
    {
      var order := Iterate(queues.Keys);
      var lo := LowerBound(order, Key(port, 0, 0));
      var i := lo;
      n, list := 0, [];
      while i < |order|
        invariant lo <= i <= |order| && n == i - lo
        invariant forall j :: lo <= j < i ==> order[j].port == port
        invariant |list| == Min(count, n)
        invariant forall j {:trigger list[j]} :: 0 <= j < |list| ==> list[j] == queues[order[lo + j]].id
      {
        ScanStaysOnPort(order, port, lo, i);
        if order[i].port > port {
          break;
        }
        if n < count {
          list := list + [queues[order[i]].id];
        }
        n := n + 1;
        i := i + 1;
      }
      ghost var range := order[lo..i];
      ScanIsFilter(queues.Keys, order, port, lo, i);
      OrderLength(range, PortKeys(queues.Keys, port));
      assert QueueIdsAlong(queues, range, list) && |list| == Min(count, |range|);
    }

    /** get_number_of_port_queues_by_type: type NONE counts every queue of the port. */
    method NumberOfPortQueuesByType(port: nat, kind: nat) returns (count: nat)
      ensures count == |MatchingKind(PortKeys(queues.Keys, port), kind)|
    {
      var order := Iterate(queues.Keys);
      var lo := LowerBound(order, Key(port, 0, 0));
      var i := lo;
      count := 0;
      while i < |order|
        invariant lo <= i <= |order|
        invariant forall j :: lo <= j < i ==> order[j].port == port
        invariant count == CountKind(order[lo..i], kind)
      {
        ScanStaysOnPort(order, port, lo, i);
        if order[i].port > port {
          break;
        }
        CountKindStep(order, lo, i, kind);
        if kind != ANYCAST && order[i].kind != kind {
          i := i + 1;
          continue;
        }
        count := count + 1;
        i := i + 1;
      }
      ScanIsFilter(queues.Keys, order, port, lo, i);
      CountKindIsCardinality(order[lo..i], PortKeys(queues.Keys, port), kind);
    }

    /** port_queue_is_initialized */
    method PortQueueIsInitialized(port: nat) returns (b: bool)
      ensures b <==> PortKeys(queues.Keys, port) != {}
    {
      var order := Iterate(queues.Keys);
      var lo := LowerBound(order, Key(port, 0, 0));
      if lo == |order| {
        ScanIsFilter(queues.Keys, order, port, lo, lo);
        return false;
      }
      ScanStaysOnPort(order, port, lo, lo);
      if order[lo].port > port {
        ScanIsFilter(queues.Keys, order, port, lo, lo);
        return false;
      }
      assert order[lo] in PortKeys(queues.Keys, port);
      return true;
    }

    /** get_port_pg_ids, and with count 0 get_number_of_port_priority_groups. */
    method GetPortPgIds(port: nat, count: nat) returns (n: nat, list: seq<NasId>)
      ensures n == |PortKeys(pgs.Keys, port)| && FirstPgIds(pgs, port, count, list)
    {
      var order := Iterate(pgs.Keys);
      var lo := LowerBound(order, Key(port, 0, 0));
      var i := lo;
      n, list := 0, [];
      while i < |order|
        invariant lo <= i <= |order| && n == i - lo
        invariant forall j :: lo <= j < i ==> order[j].port == port
        invariant |list| == Min(count, n)
        invariant forall j {:trigger list[j]} :: 0 <= j < |list| ==> list[j] == pgs[order[lo + j]].id
      {
        ScanStaysOnPort(order, port, lo, i);
        if order[i].port > port {
          break;
        }
        if n < count {
          list := list + [pgs[order[i]].id];
        }
        n := n + 1;
        i := i + 1;
      }
      ghost var range := order[lo..i];
      ScanIsFilter(pgs.Keys, order, port, lo, i);
      OrderLength(range, PortKeys(pgs.Keys, port));
      assert PgIdsAlong(pgs, range, list) && |list| == Min(count, |range|);
    }

    /** port_priority_group_is_initialized */
    method PortPgIsInitialized(port: nat) returns (b: bool)
      ensures b <==> PortKeys(pgs.Keys, port) != {}
    {
      var order := Iterate(pgs.Keys);
      var lo := LowerBound(order, Key(port, 0, 0));
      if lo == |order| {
        ScanIsFilter(pgs.Keys, order, port, lo, lo);
        return false;
      }
      ScanStaysOnPort(order, port, lo, lo);
      if order[lo].port > port {
        ScanIsFilter(pgs.Keys, order, port, lo, lo);
        return false;
      }
      assert order[lo] in PortKeys(pgs.Keys, port);
      return true;
    }

    /** port_sg_is_initialized: a plain search of an unordered table. */
    method PortSgIsInitialized(port: nat) returns (b: bool)
      ensures b <==> SgsOfPort(sgs, port) != {}
    {
      var todo := sgs.Keys;
      while todo != {}
        invariant todo <= sgs.Keys
        invariant forall s :: s in sgs && s !in todo ==> sgs[s].port != port
      {
        var s :| s in todo;
        if sgs[s].port == port {
          assert s in SgsOfPort(sgs, port);
          return true;
        }
        todo := todo - {s};
      }
      return false;
    }

    /** add_queue; false stands for the duplicate exception. */
    method AddQueue(key: Key, q: Queue) returns (ok: bool)
      modifies this`queues
      ensures ok <==> key !in old(queues)
      ensures queues == if ok then old(queues)[key := q] else old(queues)
    {
      ok := key !in queues;
      if ok {
        queues := queues[key := q];
      }
    }

    /** remove_queue */
    method RemoveQueue(key: Key)
      modifies this`queues, this`queueIds
      ensures queues == old(queues) - {key}
      ensures queueIds ==
              if key in old(queues) then old(queueIds) - {QueueRawOf(old(queues)[key].id)} else old(queueIds)
    {
      if key in queues {
        queueIds := queueIds - {QueueRawOf(queues[key].id)};
        queues := queues - {key};
      }
    }

    /** delete_queue_by_ifindex: erase while iterating, releasing as it goes. */
    method DeleteQueueByIfindex(port: nat)
      modifies this`queues, this`queueIds
      ensures queues == old(queues) - PortKeys(old(queues).Keys, port)
      ensures queueIds == old(queueIds) - QueueIdsOfPort(old(queues), port)
    {
      var order := Iterate(queues.Keys);
      var i := 0;
      ghost var erased: set<Key> := {};
      ghost var released: set<nat> := {};
      while i < |order|
        invariant 0 <= i <= |order|
        invariant forall k :: k in erased <==> k in order[..i] && k.port == port
        invariant queues == old(queues) - erased
        invariant released == set k | k in erased :: QueueRawOf(old(queues)[k].id)
        invariant queueIds == old(queueIds) - released
      {
        assert order[..i + 1] == order[..i] + [order[i]];
        assert order[i] !in order[..i];
        if order[i].port == port {
          queueIds := queueIds - {QueueRawOf(queues[order[i]].id)};
          queues := queues - {order[i]};
          erased := erased + {order[i]};
          released := released + {QueueRawOf(old(queues)[order[i]].id)};
        }
        i := i + 1;
      }
      assert order[..i] == order;
      assert erased == PortKeys(old(queues).Keys, port);
    }

    /** delete_pg_by_ifindex */
    method DeletePgByIfindex(port: nat)
      modifies this`pgs, this`pgIds
      ensures pgs == old(pgs) - PortKeys(old(pgs).Keys, port)
      ensures pgIds == old(pgIds) - PgIdsOfPort(old(pgs), port)
    {
      var order := Iterate(pgs.Keys);
      var i := 0;
      ghost var erased: set<Key> := {};
      ghost var released: set<nat> := {};
      while i < |order|
        invariant 0 <= i <= |order|
        invariant forall k :: k in erased <==> k in order[..i] && k.port == port
        invariant pgs == old(pgs) - erased
        invariant released == set k | k in erased :: old(pgs)[k].id
        invariant pgIds == old(pgIds) - released
      {
        assert order[..i + 1] == order[..i] + [order[i]];
        assert order[i] !in order[..i];
        if order[i].port == port {
          pgIds := pgIds - {pgs[order[i]].id};
          pgs := pgs - {order[i]};
          erased := erased + {order[i]};
          released := released + {old(pgs)[order[i]].id};
        }
        i := i + 1;
      }
      assert order[..i] == order;
      assert erased == PortKeys(old(pgs).Keys, port);
    }

    /** delete_sg_by_ifindex: the same over an unordered table, whatever order it is walked in. */
    method DeleteSgByIfindex(port: nat)
      modifies this`sgs, this`sgIds
      ensures sgs == old(sgs) - SgsOfPort(old(sgs), port)
      ensures sgIds == old(sgIds) - SgIdsOfPort(old(sgs), port)
    {
      var todo := sgs.Keys;
      ghost var erased: set<NasId> := {};
      ghost var released: set<nat> := {};
      while todo != {}
        invariant todo <= sgs.Keys <= old(sgs).Keys
        invariant forall s :: s in erased <==> s in old(sgs) && s !in todo && old(sgs)[s].port == port
        invariant sgs == old(sgs) - erased
        invariant released == set s | s in erased :: SgRawOf(s)
        invariant sgIds == old(sgIds) - released
      {
        var s :| s in todo;
        if sgs[s].port == port {
          sgIds := sgIds - {SgRawOf(s)};
          sgs := sgs - {s};
          erased := erased + {s};
          released := released + {SgRawOf(s)};
        }
        todo := todo - {s};
      }
      assert erased == SgsOfPort(old(sgs), port);
    }

    /** add_scheduler_group; false stands for the duplicate exception. */
    method AddSchedGroup(id: NasId, sg: SchedGroup) returns (ok: bool)
      modifies this`sgs
      ensures ok <==> id !in old(sgs)
      ensures sgs == if ok then old(sgs)[id := sg] else old(sgs)
    {
      ok := id !in sgs;
      if ok {
        sgs := sgs[id := sg];
      }
    }

    /** remove_scheduler_group: only a generated id goes back to the generator. */
    method RemoveSchedGroup(id: NasId)
      modifies this`sgs, this`sgIds
      ensures sgs == old(sgs) - {id}
      ensures sgIds == if IsAutoFormed(id) then old(sgIds) else old(sgIds) - {SgRawOf(id)}
    {
      if !IsAutoFormed(id) {
        sgIds := sgIds - {SgRawOf(id)};
      }
      sgs := sgs - {id};
    }

    /** alloc_queue_id; None is the exhaustion exception. */
    method AllocQueueId() returns (id: Option<NasId>, ghost raw: nat)
      modifies this`queueIds
      ensures id.Some? ==>
                && IsFree(old(queueIds), QUEUE_ID_MAX, raw) && id.value == QueueIdOf(raw)
                && queueIds == old(queueIds) + {raw}
      ensures id.None? ==> queueIds == old(queueIds) && QUEUE_ID_MAX <= |old(queueIds)|
    {
      var r := AllocId(queueIds, QUEUE_ID_MAX);
      if r.None? {
        return None, 0;
      }
      queueIds := queueIds + {r.value};
      return Some(QueueIdOf(r.value)), r.value;
    }

    /** alloc_scheduler_group_id */
    method AllocSgId() returns (id: Option<NasId>, ghost raw: nat)
      modifies this`sgIds
      ensures id.Some? ==> IsFree(old(sgIds), SG_ID_MAX, raw) && id.value == SgIdOf(raw) && sgIds == old(sgIds) + {raw}
      ensures id.None? ==> sgIds == old(sgIds) && SG_ID_MAX <= |old(sgIds)|
    {
      var r := AllocId(sgIds, SG_ID_MAX);
      if r.None? {
        return None, 0;
      }
      sgIds := sgIds + {r.value};
      return Some(SgIdOf(r.value)), r.value;
    }

    method AllocPgId() returns (id: Option<NasId>)
      modifies this`pgIds
      ensures id.Some? ==> IsFree(old(pgIds), PG_ID_MAX, id.value) && pgIds == old(pgIds) + {id.value}
      ensures id.None? ==> pgIds == old(pgIds) && PG_ID_MAX <= |old(pgIds)|
    {
      id := AllocId(pgIds, PG_ID_MAX);
      if id.Some? {
        pgIds := pgIds + {id.value};
      }
    }

    /** add_priority_group, add_port_ingress, add_port_egress: false stands for the duplicate exception. */
    method AddPriorityGroup(key: Key, pg: PriorityGroup) returns (ok: bool)
      modifies this`pgs
      ensures ok <==> key !in old(pgs)
      ensures pgs == if ok then old(pgs)[key := pg] else old(pgs)
    {
      ok := key !in pgs;
      if ok {
        pgs := pgs[key := pg];
      }
    }

    method AddPortIngress(port: nat, node: PortIngress) returns (ok: bool)
      modifies this`ingress
      ensures ok <==> port !in old(ingress)
      ensures ingress == if ok then old(ingress)[port := node] else old(ingress)
    {
      ok := port !in ingress;
      if ok {
        ingress := ingress[port := node];
      }
    }

    method AddPortEgress(port: nat, node: PortEgress) returns (ok: bool)
      modifies this`egress
      ensures ok <==> port !in old(egress)
      ensures egress == if ok then old(egress)[port := node] else old(egress)
    {
      ok := port !in egress;
      if ok {
        egress := egress[port := node];
      }
    }
  }
}
