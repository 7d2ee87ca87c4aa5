/** Reading the queues of a hardware port: which rows they get, and when the reading stops. */
module HqosQueues {
  import opened Wrappers
  import opened NasIds
  import opened IdGenerator
  import opened OrderedKeys
  import opened QosRows
  import opened QosSwitches
  import opened HqosForest
  import opened HqosSteps
  import opened HqosOperations
  import opened HqosIndex

  /** One queue as the hardware reports it. */
  datatype HwQueue = HwQueue(ndi: NdiId, kind: nat, index: nat, parent: NdiId, shadows: seq<NdiId>)

  predicate Known(kind: nat) { kind == UCAST || kind == MULTICAST || kind == ANYCAST }

  /** How many untyped queues come before the i-th. */
  function AnycastBefore(report: seq<HwQueue>, i: nat): nat
    requires i <= |report|
  {
    if i == 0 then 0 else AnycastBefore(report, i - 1) + (if report[i - 1].kind == ANYCAST then 1 else 0)
  }

  /** The key of the i-th queue: numbered by the hardware, or by position among the untyped ones. */
  function HwKey(port: nat, report: seq<HwQueue>, i: nat): Key
    requires i < |report|
  {
    Key(port, if report[i].kind == ANYCAST then AnycastBefore(report, i) else report[i].index, report[i].kind)
  }

  /** The places before the i-th that hold untyped queues. */
  ghost function Untyped(report: seq<HwQueue>, i: nat): set<int>
    requires i <= |report|
  {
    set j | 0 <= j < i && report[j].kind == ANYCAST
  }

  lemma UntypedStep(report: seq<HwQueue>, i: nat)
    requires i < |report|
    ensures |Untyped(report, i + 1)| == |Untyped(report, i)| + if report[i].kind == ANYCAST then 1 else 0
  {
    if report[i].kind == ANYCAST {
      assert Untyped(report, i + 1) == Untyped(report, i) + {i};
    } else {
      assert Untyped(report, i + 1) == Untyped(report, i);
    }
  }

  lemma {:induction false} UntypedAreCounted(report: seq<HwQueue>, i: nat)
    requires i <= |report|
    ensures AnycastBefore(report, i) == |Untyped(report, i)|
  {
    if i > 0 {
      UntypedAreCounted(report, i - 1);
      UntypedStep(report, i - 1);
    }
  }

  /** A typed queue is numbered by the hardware, an untyped one by how many of those come before it. */
  lemma NumberByHardwareOrRank(port: nat, report: seq<HwQueue>, i: nat)
    requires i < |report|
    ensures var key := HwKey(port, report, i);
            && key.port == port && key.kind == report[i].kind
            && key.local == if key.kind == ANYCAST then |Untyped(report, i)| else report[i].index
  {
    UntypedAreCounted(report, i);
  }

  /** The i-th queue has a new, unlinked row, and its recorded hardware parent is listed under its id. */
  ghost predicate QueueRead(before: QueueTable, after: QueueTable, port: nat, report: seq<HwQueue>, i: nat,
                            parents: map<NasId, NdiId>)
    requires i < |report|
  {
    var key, hw := HwKey(port, report, i), report[i];
    && key in after && key !in before
    && after[key] == Queue(after[key].id, 0, hw.ndi, true, hw.shadows)
    && after[key].id in parents && parents[after[key].id] == hw.parent
  }

  /** The i-th queue is of a known type and has this key. */
  ghost predicate KeyRead(port: nat, report: seq<HwQueue>, i: nat, key: Key)
    requires i < |report|
  {
    Known(report[i].kind) && key == HwKey(port, report, i)
  }

  ghost predicate EachRead(before: QueueTable, after: QueueTable, port: nat, report: seq<HwQueue>, n: nat,
                           parents: map<NasId, NdiId>)
    requires n <= |report|
  {
    forall i :: 0 <= i < n && Known(report[i].kind) ==> QueueRead(before, after, port, report, i, parents)
  }

  ghost predicate OnlyRead(before: QueueTable, after: QueueTable, port: nat, report: seq<HwQueue>, n: nat)
    requires n <= |report|
  {
    && (forall k :: k in before ==> k in after && after[k] == before[k])
    && (forall k :: k in after && k !in before ==> exists i :: 0 <= i < n && KeyRead(port, report, i, k))
  }

  ghost predicate OnlyListed(before: QueueTable, after: QueueTable, parents: map<NasId, NdiId>) {
    forall c :: c in parents ==> exists k :: k in after && k !in before && after[k].id == c
  }

  /**
   u is t with exactly the first n reported queues of a known type read: a row and a listed parent
   each, ids of their own, and nothing else.
   */
  ghost predicate QueuesRead(t: Tree, u: Tree, port: nat, report: seq<HwQueue>, n: nat, parents: map<NasId, NdiId>) {
    && n <= |report| && u.sgs == t.sgs && u.sgIds == t.sgIds && QueueIdsOk(u.queues, u.queueIds)
    && EachRead(t.queues, u.queues, port, report, n, parents) && OnlyRead(t.queues, u.queues, port, report, n)
    && OnlyListed(t.queues, u.queues, parents)
  }

  lemma NoneRead(t: Tree, port: nat, report: seq<HwQueue>)
    requires QueueIdsOk(t.queues, t.queueIds)
    ensures QueuesRead(t, t, port, report, 0, map[])
  {}

  /** A queue of an unknown type is passed over. */
  lemma UnknownRead(t: Tree, u: Tree, port: nat, report: seq<HwQueue>, n: nat, parents: map<NasId, NdiId>)
    requires QueuesRead(t, u, port, report, n, parents) && n < |report| && !Known(report[n].kind)
    ensures QueuesRead(t, u, port, report, n + 1, parents)
  {
    OneMoreKey(t.queues, u.queues, u.queues, port, report, n);
  }

  /** The table after one more queue has at most one more key, that of the queue. */
  lemma OneMoreKey(before: QueueTable, mid: QueueTable, after: QueueTable, port: nat, report: seq<HwQueue>, n: nat)
    requires n < |report| && OnlyRead(before, mid, port, report, n)
    requires forall k :: k in mid ==> k in after && after[k] == mid[k]
    requires forall k :: k in after && k !in mid ==> KeyRead(port, report, n, k)
    ensures OnlyRead(before, after, port, report, n + 1)
  {
    forall k | k in after && k !in before ensures exists i :: 0 <= i < n + 1 && KeyRead(port, report, i, k) {
      if k in mid {
        var i :| 0 <= i < n && KeyRead(port, report, i, k);
      }
    }
  }

  lemma OneMoreQueue(before: QueueTable, mid: QueueTable, port: nat, report: seq<HwQueue>, n: nat,
                     parents: map<NasId, NdiId>, id: NasId)
    requires n < |report| && EachRead(before, mid, port, report, n, parents) && OnlyRead(before, mid, port, report, n)
    requires HwKey(port, report, n) !in mid && forall k :: k in mid ==> mid[k].id != id
    ensures var after := mid[HwKey(port, report, n) := Queue(id, 0, report[n].ndi, true, report[n].shadows)];
            EachRead(before, after, port, report, n + 1, parents[id := report[n].parent])
  {
    var after := mid[HwKey(port, report, n) := Queue(id, 0, report[n].ndi, true, report[n].shadows)];
    var parents' := parents[id := report[n].parent];
    forall i | 0 <= i < n + 1 && Known(report[i].kind) ensures QueueRead(before, after, port, report, i, parents') {
      if i < n {
        assert QueueRead(before, mid, port, report, i, parents);
      }
    }
  }

  lemma OneMoreListed(before: QueueTable, mid: QueueTable, parents: map<NasId, NdiId>, key: Key, row: Queue, ndi: NdiId)
    requires OnlyListed(before, mid, parents) && key !in mid && key !in before
    ensures OnlyListed(before, mid[key := row], parents[row.id := ndi])
  {
    var after, listed := mid[key := row], parents[row.id := ndi];
    forall c | c in listed ensures exists k :: k in after && k !in before && after[k].id == c {
      if c == row.id {
        assert after[key].id == c;
      } else {
        var k :| k in mid && k !in before && mid[k].id == c;
        assert after[k].id == c;
      }
    }
  }

  /** One more queue read, under an id no other queue has. */
  lemma OneMoreRead(t: Tree, u: Tree, port: nat, report: seq<HwQueue>, n: nat, parents: map<NasId, NdiId>, id: NasId,
                    v: Tree)
    requires QueuesRead(t, u, port, report, n, parents) && n < |report| && Known(report[n].kind)
    requires HwKey(port, report, n) !in u.queues && forall k :: k in u.queues ==> u.queues[k].id != id
    requires v.queues == u.queues[HwKey(port, report, n) := Queue(id, 0, report[n].ndi, true, report[n].shadows)]
    requires v.sgs == u.sgs && v.sgIds == u.sgIds && QueueIdsOk(v.queues, v.queueIds)
    ensures QueuesRead(t, v, port, report, n + 1, parents[id := report[n].parent])
  {
    var key := HwKey(port, report, n);
    assert KeyRead(port, report, n, key);
    OneMoreKey(t.queues, u.queues, v.queues, port, report, n);
    OneMoreQueue(t.queues, u.queues, port, report, n, parents, id);
    OneMoreListed(t.queues, u.queues, parents, key, v.queues[key], report[n].parent);
  }

  lemma NewIdIsOwn(queues: QueueTable, inUse: set<nat>, key: Key, row: Queue, raw: nat)
    requires QueueIdsOk(queues, inUse) && IsFree(inUse, QUEUE_ID_MAX, raw) && row.id == QueueIdOf(raw) && key !in queues
    ensures QueueIdsOk(queues[key := row], inUse + {raw})
    ensures forall k :: k in queues ==> queues[k].id != row.id
  {
    NewQueueKeepsIds(queues, inUse, key, row, raw);
    forall k | k in queues ensures queues[k].id != row.id {
      ReleaseInvertsAlloc(raw);
    }
  }

  /** create_port_queue: a failed one has still used up an id. The new row enters the table unlinked. */
  method CreatePortQueue(sw: QosSwitch, key: Key, hw: HwQueue) returns (id: Option<NasId>)
    requires QueueIdsOk(sw.queues, sw.queueIds)
    modifies sw`queues, sw`queueIds
    ensures id.Some? ==> key !in old(sw.queues) && forall k :: k in old(sw.queues) ==> old(sw.queues)[k].id != id.value
    ensures id.Some? ==> sw.queues == old(sw.queues)[key := Queue(id.value, 0, hw.ndi, true, hw.shadows)]
    ensures id.None? ==> sw.queues == old(sw.queues) && (QUEUE_ID_MAX <= |sw.queueIds| || key in sw.queues)
    ensures QueueIdsOk(sw.queues, sw.queueIds)
  {
    ghost var queues, ids := sw.queues, sw.queueIds;
    var taken, raw := sw.AllocQueueId();
    if taken.None? {
      return None;
    }
    var row := Queue(taken.value, 0, hw.ndi, true, hw.shadows);
    var ok := sw.AddQueue(key, row);
    if ok {
      NewIdIsOwn(queues, ids, key, row, raw);
    }
    id := if ok then Some(taken.value) else None;
  }

  /** One reported queue of a known type. */
  method PortQueueStep(sw: QosSwitch, ghost port: nat, key: Key, hw: HwQueue, parents: map<NasId, NdiId>,
                       ghost t: Tree, ghost report: seq<HwQueue>, ghost n: nat)
    returns (ok: bool, parents': map<NasId, NdiId>)
    requires QueuesRead(t, TreeOf(sw), port, report, n, parents)
    requires n < |report| && report[n] == hw && Known(hw.kind) && key == HwKey(port, report, n)
    modifies sw`queues, sw`queueIds
    ensures QueuesRead(t, TreeOf(sw), port, report, if ok then n + 1 else n, parents')
    ensures !ok ==> QUEUE_ID_MAX <= |sw.queueIds| || key in sw.queues
  {
    ghost var u := TreeOf(sw);
    var id := CreatePortQueue(sw, key, hw);
    if id.None? {
      SameRowsRead(t, u, TreeOf(sw), port, report, n, parents);
      return false, parents;
    }
    OneMoreRead(t, u, port, report, n, parents, id.value, TreeOf(sw));
    return true, parents[id.value := hw.parent];
  }

  lemma SameRowsRead(t: Tree, u: Tree, v: Tree, port: nat, report: seq<HwQueue>, n: nat, parents: map<NasId, NdiId>)
    requires QueuesRead(t, u, port, report, n, parents)
    requires v.queues == u.queues && v.sgs == u.sgs && v.sgIds == u.sgIds && QueueIdsOk(v.queues, v.queueIds)
    ensures QueuesRead(t, v, port, report, n, parents)
  {}

  /**
   nas_qos_port_queue_init of a hardware port: every reported queue of a known type gets its row and
   its listed parent; the reading stops short only at a full generator or a key already taken.
   */
  method PortQueueInit(sw: QosSwitch, port: nat, report: seq<HwQueue>)
    returns (rc: bool, parents: map<NasId, NdiId>, ghost n: nat)
    requires QueueIdsOk(sw.queues, sw.queueIds)
    modifies sw`queues, sw`queueIds
    ensures QueuesRead(old(TreeOf(sw)), TreeOf(sw), port, report, n, parents)
    ensures rc <==> n == |report|
    ensures !rc ==> Known(report[n].kind) && (QUEUE_ID_MAX <= |sw.queueIds| || HwKey(port, report, n) in sw.queues)
  {
    parents := map[];
    var anycast, i := 0, 0;
    NoneRead(TreeOf(sw), port, report);
    while i < |report|
      invariant 0 <= i <= |report| && anycast == AnycastBefore(report, i)
      invariant QueuesRead(old(TreeOf(sw)), TreeOf(sw), port, report, i, parents)
    {
      var hw := report[i];
      if hw.kind == UCAST || hw.kind == MULTICAST || hw.kind == ANYCAST {
        var number := hw.index;
        if hw.kind == ANYCAST {
          number := anycast;
          anycast := anycast + 1;
        }
        var ok;
        ok, parents := PortQueueStep(sw, port, Key(port, number, hw.kind), hw, parents, old(TreeOf(sw)), report, i);
        if !ok {
          return false, parents, i;
        }
      } else {
        UnknownRead(old(TreeOf(sw)), TreeOf(sw), port, report, i, parents);
      }
      i := i + 1;
    }
    return true, parents, i;
  }

  // ---- What the rows read mean for the tree ----

  /** Reported queues have distinct, non-null hardware ids that no backed row of the switch has. */
  ghost predicate SaneQueues(queues: QueueTable, report: seq<HwQueue>) {
    && (forall i :: 0 <= i < |report| ==> report[i].ndi != NDI_NULL)
    && (forall i, j :: 0 <= i < j < |report| ==> report[i].ndi != report[j].ndi)
    && (forall i, k :: 0 <= i < |report| && k in queues && queues[k].created ==> report[i].ndi != queues[k].ndi)
  }

  lemma NewRow(before: QueueTable, after: QueueTable, port: nat, report: seq<HwQueue>, n: nat, parents: map<NasId,
               NdiId>, k: Key)
    requires n <= |report| && EachRead(before, after, port, report, n, parents)
             && OnlyRead(before, after, port, report, n)
    requires k in after && k !in before
    ensures k.port == port && after[k].created && after[k].parent == 0 && after[k].id in parents
    ensures exists i :: 0 <= i < n && k == HwKey(port, report, i) && after[k].ndi == report[i].ndi
  {
    var i :| 0 <= i < n && KeyRead(port, report, i, k);
    assert QueueRead(before, after, port, report, i, parents);
  }

  lemma ReadKeepsHwIds(t: Tree, u: Tree, port: nat, report: seq<HwQueue>, n: nat, parents: map<NasId, NdiId>)
    requires QueuesRead(t, u, port, report, n, parents) && HwIdsDistinct(t.queues, t.sgs)
             && SaneQueues(t.queues, report)
    ensures HwIdsDistinct(u.queues, u.sgs)
  {
    forall k | k in u.queues && k !in t.queues
      ensures exists i :: 0 <= i < n && k == HwKey(port, report, i) && u.queues[k].ndi == report[i].ndi
    {
      NewRow(t.queues, u.queues, port, report, n, parents, k);
    }
    DistinctNdis(t.queues, u.queues, port, report, n);
  }

  lemma DistinctNdis(before: QueueTable, after: QueueTable, port: nat, report: seq<HwQueue>, n: nat)
    requires n <= |report| && SaneQueues(before, report) && HwIdsDistinct(before, map[])
    requires forall k :: k in before ==> k in after && after[k] == before[k]
    requires forall k :: k in after && k !in before ==>
               exists i :: 0 <= i < n && k == HwKey(port, report, i) && after[k].ndi == report[i].ndi
    ensures HwIdsDistinct(after, map[])
  {
    forall k, k' | k in after && k' in after && after[k].created && after[k'].created && after[k].ndi == after[k'].ndi
      ensures k == k'
    {
      if k !in before && k' !in before {
        var i :| 0 <= i < n && k == HwKey(port, report, i) && after[k].ndi == report[i].ndi;
        var j :| 0 <= j < n && k' == HwKey(port, report, j) && after[k'].ndi == report[j].ndi;
        assert i == j;
      }
    }
  }

  /** Rows read are unlinked nodes, so the tree stays well linked. */
  lemma ReadKeepsLinked(t: Tree, virt: set<nat>, u: Tree, port: nat, report: seq<HwQueue>, n: nat,
                        parents: map<NasId, NdiId>)
    requires WellLinked(t, virt) && QueuesRead(t, u, port, report, n, parents) && port !in virt
    ensures WellLinked(u, virt)
  {
    forall k | k in u.queues && k !in t.queues
      ensures k.port == port && u.queues[k].created && u.queues[k].parent == 0 {
      NewRow(t.queues, u.queues, port, report, n, parents, k);
    }
    forall k | k in u.queues ensures u.queues[k].id !in u.sgs {
      GeneratedIdTags(QueueRawOf(u.queues[k].id));
      if u.queues[k].id in u.sgs {
        SgIdIsNoQueueId(t, u.queues[k].id);
      }
    }
    UnlinkedRows(t, u);
  }

  lemma UnlinkedRows(t: Tree, u: Tree)
    requires Links(t) && u.sgs == t.sgs
    requires forall k :: k in t.queues ==> k in u.queues && u.queues[k] == t.queues[k]
    requires forall k :: k in u.queues && k !in t.queues ==> u.queues[k].parent == 0
    ensures ListsMatch(u)
  {
    forall q | q in u.sgs ensures ListOk(u, q) {
      assert ListOk(t, q);
      forall c ensures QueueChild(u, c, q) <==> QueueChild(t, c, q) {
        if QueueChild(t, c, q) {
          var k :| k in t.queues && t.queues[k].id == c && t.queues[k].created && t.queues[k].parent == q;
          assert u.queues[k] == t.queues[k];
        }
      }
    }
  }
}
