/**
 The rows of a virtual port that is up, field by field, and what they are there for: an association
 with a hardware that reports the groups right above the queues binds every one of them.
 */
module VpEffects {
  import opened Wrappers
  import opened NasIds
  import opened IdGenerator
  import opened OrderedKeys
  import opened QosRows
  import opened QosSwitches
  import opened VpQueues
  import opened VpTables
  import opened HqosIndex
  import opened HqosQueues
  import opened HqosForest
  import opened HqosVirtual
  import opened HqosBinding

  // ---- The rows ----

  /** Unicast queues 0..ucast-1 and multicast queues after them up to the total, and no others. */
  ghost predicate QueueKeysUp(queues: map<Key, Queue>, sh: Shape, port: nat) {
    && (forall n: nat :: Key(port, n, UCAST) in queues <==> n < sh.ucast && n < sh.total)
    && (forall n: nat :: Key(port, n, MULTICAST) in queues <==> n + sh.ucast < sh.total)
    && (forall k :: k in queues && k.port == port ==> k.kind == UCAST || k.kind == MULTICAST)
  }

  /** Each under the group of its own number, and without hardware side. */
  ghost predicate QueueRowsUp(queues: map<Key, Queue>, sh: Shape, port: nat) {
    forall k :: k in queues && k.port == port ==>
      && queues[k].parent == FormatSgId(port, sh.leaf, k.local)
      && queues[k].ndi == NDI_NULL && !queues[k].created && queues[k].shadows == []
  }

  /** One group for each unicast queue, whose id holds its port, its level and its number. */
  ghost predicate GroupIdsUp(sgs: map<NasId, SchedGroup>, sh: Shape, port: nat) {
    && (forall s :: s in sgs && sgs[s].port == port ==>
          && SgPort(s) == port && SgLevel(s) == sh.leaf && SgIndex(s) < sh.ucast
          && s == FormatSgId(port, sh.leaf, SgIndex(s)))
    && (forall i: nat :: i < sh.ucast ==> NumberedGroup(sgs, port, FormatSgId(port, sh.leaf, i), i))
  }

  ghost predicate NumberedGroup(sgs: map<NasId, SchedGroup>, port: nat, s: NasId, i: nat) {
    s in sgs && sgs[s].port == port && SgIndex(s) == i
  }

  /** Each at the level right above the queues, with no parent, child, profile or hardware side. */
  ghost predicate GroupRowsUp(sgs: map<NasId, SchedGroup>, sh: Shape, port: nat) {
    forall s :: s in sgs && sgs[s].port == port ==>
      && sgs[s].level == sh.leaf && sgs[s].profile == 0 && sgs[s].maxChild == 0 && sgs[s].parent == 0
      && sgs[s].children == [] && sgs[s].ndi == NDI_NULL && !sgs[s].created
  }

  /** Priority groups 0..7, with no buffer profile and no hardware side. */
  ghost predicate PgRowsUp(pgs: map<Key, PriorityGroup>, port: nat) {
    && (forall n: nat, kind: nat :: Key(port, n, kind) in pgs <==> n < 8 && kind == 0)
    && (forall k :: k in pgs && k.port == port ==>
          pgs[k].bufferProfile == 0 && pgs[k].ndi == NDI_NULL && !pgs[k].created)
  }

  lemma KeysUp(queues: map<Key, Queue>, sh: Shape, port: nat)
    requires PortKeys(queues.Keys, port) == VpKeys(port, sh, sh.total)
    ensures QueueKeysUp(queues, sh, port)
  {
    forall n: nat ensures Key(port, n, UCAST) in queues <==> n < sh.ucast && n < sh.total {
      assert Key(port, n, UCAST) in queues <==> Key(port, n, UCAST) in PortKeys(queues.Keys, port);
      if n < sh.ucast && n < sh.total {
        assert VpKey(port, sh, n) == Key(port, n, UCAST);
      }
    }
    forall n: nat ensures Key(port, n, MULTICAST) in queues <==> n + sh.ucast < sh.total {
      assert Key(port, n, MULTICAST) in queues <==> Key(port, n, MULTICAST) in PortKeys(queues.Keys, port);
      if n + sh.ucast < sh.total {
        assert VpKey(port, sh, n + sh.ucast) == Key(port, n, MULTICAST);
      }
    }
    forall k | k in queues && k.port == port ensures k.kind == UCAST || k.kind == MULTICAST {
      assert k in PortKeys(queues.Keys, port);
    }
  }

  lemma GroupsUp(sgs: map<NasId, SchedGroup>, sh: Shape, port: nat)
    requires SgsOfPort(sgs, port) == VpGroups(port, sh, sh.ucast) && PackableShape(port, sh)
    ensures GroupIdsUp(sgs, sh, port)
  {
    forall s | s in sgs && sgs[s].port == port
      ensures SgPort(s) == port && SgLevel(s) == sh.leaf && SgIndex(s) < sh.ucast
              && s == FormatSgId(port, sh.leaf, SgIndex(s))
    {
      assert s in SgsOfPort(sgs, port);
      var i :| 0 <= i < sh.ucast && s == FormatSgId(port, sh.leaf, i);
      SgIdRoundTrip(port, sh.leaf, i);
    }
    forall i: nat | i < sh.ucast ensures NumberedGroup(sgs, port, FormatSgId(port, sh.leaf, i), i) {
      assert FormatSgId(port, sh.leaf, i) in SgsOfPort(sgs, port);
      SgIdRoundTrip(port, sh.leaf, i);
    }
  }

  lemma PgsAreUp(pgs: map<Key, PriorityGroup>, port: nat)
    requires PgsUp(pgs, port)
    ensures PgRowsUp(pgs, port)
  {
    forall n: nat, kind: nat ensures Key(port, n, kind) in pgs <==> n < 8 && kind == 0 {
      assert Key(port, n, kind) in pgs <==> Key(port, n, kind) in PortKeys(pgs.Keys, port);
    }
  }

  /** The rows of a ready port. */
  lemma ReadyRows(t: Tables, sh: Shape, port: nat)
    requires Ready(t, sh, port) && PackableShape(port, sh)
    ensures QueueKeysUp(t.queues, sh, port) && QueueRowsUp(t.queues, sh, port)
    ensures GroupIdsUp(t.sgs, sh, port) && GroupRowsUp(t.sgs, sh, port)
    ensures PgRowsUp(t.pgs, port)
  {
    KeysUp(t.queues, sh, port);
    GroupsUp(t.sgs, sh, port);
    PgsAreUp(t.pgs, port);
  }

  /** New groups of the port, numbered below n, each with the row and id of a ready port. */
  ghost predicate NewGroupRows(before: map<NasId, SchedGroup>, after: map<NasId, SchedGroup>, port: nat, leaf: nat,
                               n: nat) {
    forall s :: s in after && s !in before ==>
      && SgPort(s) == port && SgLevel(s) == leaf && SgIndex(s) < n
      && after[s].port == port && after[s].level == leaf && after[s].profile == 0 && after[s].maxChild == 0
      && after[s].parent == 0 && after[s].children == [] && after[s].ndi == NDI_NULL && !after[s].created
  }

  lemma AddedGroupRows(before: map<NasId, SchedGroup>, after: map<NasId, SchedGroup>, port: nat, sh: Shape, n: nat)
    requires SgsAdded(before, after, port, sh.leaf, VpGroups(port, sh, n)) && n <= sh.ucast && PackableShape(port, sh)
    ensures NewGroupRows(before, after, port, sh.leaf, n)
  {
    forall s | s in after && s !in before ensures SgPort(s) == port && SgLevel(s) == sh.leaf && SgIndex(s) < n {
      var i :| 0 <= i < n && s == FormatSgId(port, sh.leaf, i);
      SgIdRoundTrip(port, sh.leaf, i);
    }
  }

  // ---- The association ----

  /** A hardware group right above the queues, with nothing but bound queues below, the lowest of number low. */
  ghost predicate AboveQueues(queues: QueueTable, leaf: nat, hw: HwSg, low: nat) {
    && hw.readable && hw.level == leaf
    && (forall c :: c in hw.children ==> !NoQueue(queues, c))
    && (exists c :: c in hw.children && QueueNumber(queues, c, low))
    && (forall c, n :: c in hw.children && QueueNumber(queues, c, n) ==> low <= n)
  }

  /** The report gives the port's groups hardware sides, one for each number. */
  ghost predicate Covers(queues: QueueTable, sh: Shape, report: seq<HwSg>, lows: seq<nat>) {
    && |lows| == |report|
    && (forall i :: 0 <= i < |report| ==> AboveQueues(queues, sh.leaf, report[i], lows[i]))
    && (forall i :: 0 <= i < |lows| ==> lows[i] < sh.ucast)
    && (forall i, j :: 0 <= i < j < |lows| ==> lows[i] != lows[j])
    && (forall n :: 0 <= n < sh.ucast ==> n in lows)
  }

  lemma LowestIsLow(queues: QueueTable, sgs: SgTable, leaf: nat, hw: HwSg, low: nat, found: nat)
    requires AboveQueues(queues, leaf, hw, low) && low <= 255 && IsLowest(queues, sgs, hw.children, found)
    ensures found == low
  {}

  /** The row of a bound group: as it was, but for its hardware id and number of children. */
  ghost predicate BoundBy(row: SchedGroup, hw: HwSg, port: nat, leaf: nat) {
    row == SchedGroup(port, leaf, 0, hw.maxChild, 0, [], hw.ndi, true)
  }

  /** The port's groups answer to these numbers, and to nothing else. */
  ghost predicate Numbered(sgs: SgTable, port: nat, leaf: nat, ids: seq<NasId>, lows: seq<nat>) {
    && |ids| == |lows|
    && (forall i :: 0 <= i < |ids| ==> NumberedGroup(sgs, port, ids[i], lows[i]))
    && (forall s, i :: s in sgs && sgs[s].port == port && 0 <= i < |ids| && SgIndex(s) == lows[i] ==> s == ids[i])
    && (forall i, j :: 0 <= i < j < |ids| ==> ids[i] != ids[j])
    && (forall s :: s in sgs && sgs[s].port == port ==>
          SgLevel(s) == leaf && sgs[s] == SchedGroup(port, leaf, 0, 0, 0, [], NDI_NULL, false))
  }

  /** The first n reported groups are bound; nothing else differs. */
  ghost predicate BoundSoFar(first: SgTable, sgs: SgTable, port: nat, leaf: nat, report: seq<HwSg>, ids: seq<NasId>,
                             n: nat)
    requires n <= |report| == |ids|
  {
    && sgs.Keys == first.Keys
    && (forall i :: 0 <= i < n && ids[i] in sgs ==> BoundBy(sgs[ids[i]], report[i], port, leaf))
    && (forall s :: s in first && s !in ids[..n] ==> sgs[s] == first[s])
  }

  lemma OnlyMatch(first: SgTable, sgs: SgTable, port: nat, leaf: nat, report: seq<HwSg>, ids: seq<NasId>,
                  lows: seq<nat>, n: nat, s: NasId)
    requires n < |report| == |ids| && Numbered(first, port, leaf, ids, lows)
    requires BoundSoFar(first, sgs, port, leaf, report, ids, n)
    ensures IsMatch(sgs, port, leaf, s, lows[n]) <==> s == ids[n]
    ensures ids[n] in first && ids[n] !in ids[..n]
    ensures first[ids[n]] == SchedGroup(port, leaf, 0, 0, 0, [], NDI_NULL, false)
  {
    assert NumberedGroup(first, port, ids[n], lows[n]);
    if s in sgs && s in ids[..n] {
      var i :| 0 <= i < n && ids[i] == s;
      assert NumberedGroup(first, port, ids[i], lows[i]);
    }
  }

  lemma StepBinds(queues: QueueTable, first: SgTable, before: SgTable, after: SgTable, port: nat, sh: Shape,
                  report: seq<HwSg>, ids: seq<NasId>, lows: seq<nat>, n: nat)
    requires n < |report| == |ids| && Numbered(first, port, sh.leaf, ids, lows) && sh.ucast <= 256
    requires Covers(queues, sh, report, lows) && BoundSoFar(first, before, port, sh.leaf, report, ids, n)
    requires IsBindStep(queues, port, sh.leaf, report[n], before, after)
    ensures BoundSoFar(first, after, port, sh.leaf, report, ids, n + 1)
  {
    var hw := report[n];
    forall found | IsLowest(queues, before, hw.children, found) ensures found == lows[n] {
      LowestIsLow(queues, before, sh.leaf, hw, lows[n], found);
    }
    forall s ensures IsMatch(before, port, sh.leaf, s, lows[n]) <==> s == ids[n] {
      OnlyMatch(first, before, port, sh.leaf, report, ids, lows, n, s);
    }
    OnlyMatch(first, before, port, sh.leaf, report, ids, lows, n, ids[n]);
    MatchIsBound(queues, before, after, port, sh.leaf, hw, ids[n], lows[n]);
    OneMoreBound(first, before, after, port, sh.leaf, report, ids, n, ids[n]);
  }

  lemma MatchIsBound(queues: QueueTable, before: SgTable, after: SgTable, port: nat, leaf: nat, hw: HwSg, s: NasId,
                     low: nat)
    requires IsBindStep(queues, port, leaf, hw, before, after) && hw.readable && hw.level == leaf
    requires forall found :: IsLowest(queues, before, hw.children, found) ==> found == low
    requires forall x :: IsMatch(before, port, leaf, x, low) <==> x == s
    ensures s in before && after == before[s := GroupBoundTo(before[s], hw)]
  {
    assert IsMatch(before, port, leaf, s, low);
  }

  lemma OneMoreBound(first: SgTable, before: SgTable, after: SgTable, port: nat, leaf: nat, report: seq<HwSg>,
                     ids: seq<NasId>, n: nat, id: NasId)
    requires n < |report| == |ids| && id == ids[n] && id in before && id !in ids[..n]
    requires BoundSoFar(first, before, port, leaf, report, ids, n)
    requires first[id] == SchedGroup(port, leaf, 0, 0, 0, [], NDI_NULL, false)
    requires after == before[id := GroupBoundTo(before[id], report[n])]
    ensures BoundSoFar(first, after, port, leaf, report, ids, n + 1)
  {
    assert ids[..n + 1] == ids[..n] + [id];
    forall i | 0 <= i < n ensures ids[i] != id {
      assert ids[..n][i] == ids[i];
    }
    assert BoundBy(after[id], report[n], port, leaf);
  }

  lemma BindingStep(queues: QueueTable, port: nat, leaf: nat, report: seq<HwSg>, tables: seq<SgTable>, i: nat)
    requires IsBinding(queues, port, leaf, report, tables, |report|) && i < |report|
    ensures IsBindStep(queues, port, leaf, report[i], tables[i], tables[i + 1])
  {}

  /** The table after step n is bound so far, if the one before it was. */
  ghost predicate StepOk(tables: seq<SgTable>, port: nat, leaf: nat, report: seq<HwSg>, ids: seq<NasId>, n: nat)
    requires n < |report| == |ids| && |tables| == |report| + 1
  {
    BoundSoFar(tables[0], tables[n], port, leaf, report, ids, n) ==>
      BoundSoFar(tables[0], tables[n + 1], port, leaf, report, ids, n + 1)
  }

  lemma {:induction false} AllBind(tables: seq<SgTable>, port: nat, leaf: nat, report: seq<HwSg>, ids: seq<NasId>,
                                   n: nat)
    requires n <= |report| == |ids| && |tables| == |report| + 1
    requires forall i :: 0 <= i < |report| ==> StepOk(tables, port, leaf, report, ids, i)
    ensures BoundSoFar(tables[0], tables[n], port, leaf, report, ids, n)
  {
    if n > 0 {
      AllBind(tables, port, leaf, report, ids, n - 1);
      assert StepOk(tables, port, leaf, report, ids, n - 1);
    }
  }

  lemma StepIsOk(queues: QueueTable, tables: seq<SgTable>, port: nat, sh: Shape, report: seq<HwSg>, ids: seq<NasId>,
                 lows: seq<nat>, n: nat)
    requires n < |report| == |ids| && IsBinding(queues, port, sh.leaf, report, tables, |report|)
    requires Numbered(tables[0], port, sh.leaf, ids, lows) && sh.ucast <= 256 && Covers(queues, sh, report, lows)
    ensures StepOk(tables, port, sh.leaf, report, ids, n)
  {
    BindingStep(queues, port, sh.leaf, report, tables, n);
    if BoundSoFar(tables[0], tables[n], port, sh.leaf, report, ids, n) {
      StepBinds(queues, tables[0], tables[n], tables[n + 1], port, sh, report, ids, lows, n);
    }
  }

  function GroupIds(port: nat, leaf: nat, lows: seq<nat>): seq<NasId> {
    seq(|lows|, i requires 0 <= i < |lows| => FormatSgId(port, leaf, lows[i]))
  }

  lemma IdsNumbered(sgs: SgTable, port: nat, sh: Shape, lows: seq<nat>, ids: seq<NasId>)
    requires GroupIdsUp(sgs, sh, port) && GroupRowsUp(sgs, sh, port)
    requires forall i :: 0 <= i < |lows| ==> lows[i] < sh.ucast
    requires forall i, j :: 0 <= i < j < |lows| ==> lows[i] != lows[j]
    requires |ids| == |lows| && forall i :: 0 <= i < |lows| ==> ids[i] == FormatSgId(port, sh.leaf, lows[i])
    ensures Numbered(sgs, port, sh.leaf, ids, lows)
  {
    forall i | 0 <= i < |ids| ensures NumberedGroup(sgs, port, ids[i], lows[i]) {}
    forall s | s in sgs && sgs[s].port == port
      ensures SgLevel(s) == sh.leaf && sgs[s] == SchedGroup(port, sh.leaf, 0, 0, 0, [], NDI_NULL, false) {}
    forall s, i | s in sgs && sgs[s].port == port && 0 <= i < |ids| && SgIndex(s) == lows[i] ensures s == ids[i] {}
  }

  /**
   Associating a port that is up with a report that covers the numbers of its groups, each group's the
   least number of a queue below, binds every group of the port, to the group reported for its number.
   */
  lemma AssociationBindsEveryGroup(queues: QueueTable, port: nat, sh: Shape, report: seq<HwSg>, tables: seq<SgTable>,
                                   lows: seq<nat>)
    requires IsBinding(queues, port, sh.leaf, report, tables, |report|) && sh.ucast <= 256
    requires GroupIdsUp(tables[0], sh, port) && GroupRowsUp(tables[0], sh, port)
    requires Covers(queues, sh, report, lows)
    ensures var after := tables[|report|];
            && after.Keys == tables[0].Keys
            && (forall i :: 0 <= i < |report| ==>
                  var s := FormatSgId(port, sh.leaf, lows[i]);
                  && s in after
                  && after[s] == SchedGroup(port, sh.leaf, 0, report[i].maxChild, 0, [], report[i].ndi, true))
            && (forall s :: s in after && after[s].port == port ==> after[s].created)
            && (forall s :: s in after && tables[0][s].port != port ==> after[s] == tables[0][s])
  {
    var ids := GroupIds(port, sh.leaf, lows);
    IdsNumbered(tables[0], port, sh, lows, ids);
    forall n | 0 <= n < |report| ensures StepOk(tables, port, sh.leaf, report, ids, n) {
      StepIsOk(queues, tables, port, sh, report, ids, lows, n);
    }
    AllBind(tables, port, sh.leaf, report, ids, |report|);
    EveryGroupIsNamed(tables[0], tables[|report|], port, sh, report, ids, lows);
  }

  lemma EveryGroupIsNamed(first: SgTable, after: SgTable, port: nat, sh: Shape, report: seq<HwSg>, ids: seq<NasId>,
                          lows: seq<nat>)
    requires |ids| == |report| && Numbered(first, port, sh.leaf, ids, lows) && GroupIdsUp(first, sh, port)
    requires BoundSoFar(first, after, port, sh.leaf, report, ids, |report|)
    requires forall n :: 0 <= n < sh.ucast ==> n in lows
    ensures forall i :: 0 <= i < |report| ==> ids[i] in after && BoundBy(after[ids[i]], report[i], port, sh.leaf)
    ensures forall s :: s in after && after[s].port == port ==> after[s].created
    ensures forall s :: s in after && first[s].port != port ==> after[s] == first[s]
  {
    forall i | 0 <= i < |report|
      ensures ids[i] in first && first[ids[i]].port == port
      ensures BoundBy(after[ids[i]], report[i], port, sh.leaf)
    {
      assert NumberedGroup(first, port, ids[i], lows[i]);
    }
    assert forall s :: s in first && first[s].port != port ==> s !in ids[..|report|];
    forall s | s in after && after[s].port == port ensures after[s].created {
      if first[s].port == port {
        assert SgIndex(s) < sh.ucast && SgIndex(s) in lows;
        var i :| 0 <= i < |lows| && lows[i] == SgIndex(s);
        assert s == ids[i];
      }
    }
  }

  /** The report names the queue at i, and at no later place. */
  ghost predicate LastNamed(report: seq<HwQueue>, i: nat, key: Key) {
    && i < |report| && report[i].kind == key.kind && report[i].index == key.local
    && forall j :: i < j < |report| ==> report[j].kind != key.kind || report[j].index != key.local
  }

  lemma {:induction false} LastNamedIsReported(report: seq<HwQueue>, n: nat, i: nat, key: Key)
    requires i < n <= |report| && LastNamed(report, i, key)
    ensures LastReported(report, n, key) == Some(report[i])
  {
    if i < n - 1 {
      LastNamedIsReported(report, n - 1, i, key);
    }
  }

  lemma {:induction false} UnnamedIsUnreported(report: seq<HwQueue>, n: nat, key: Key)
    requires n <= |report|
    requires forall i :: 0 <= i < n ==> report[i].kind != key.kind || report[i].index != key.local
    ensures LastReported(report, n, key) == None
  {
    if n > 0 {
      UnnamedIsUnreported(report, n - 1, key);
    }
  }

  /**
   Associating the queues of a port gives each queue the hardware id and the shadow queues of the last
   report of its type and number, keeping its id and parent; unreported queues and other ports stay.
   */
  lemma AssociationBindsQueues(before: QueueTable, after: QueueTable, port: nat, report: seq<HwQueue>, k: Key, i: nat)
    requires QueuesBound(before, after, port, report, |report|) && k in before
    ensures k in after
    ensures k.port == port && LastNamed(report, i, k) ==>
              after[k] == Queue(before[k].id, before[k].parent, report[i].ndi, true, report[i].shadows)
    ensures k.port != port || (forall j :: 0 <= j < |report| ==> report[j].kind != k.kind || report[j].index != k.local)
            ==> after[k] == before[k]
  {
    if k.port == port {
      if LastNamed(report, i, k) {
        LastNamedIsReported(report, |report|, i, k);
      }
      if forall j :: 0 <= j < |report| ==> report[j].kind != k.kind || report[j].index != k.local {
        UnnamedIsUnreported(report, |report|, k);
      }
    }
  }

  // ---- The dissociation ----

  /** A dissociation takes the hardware side of the port's queues and leaf-level groups, and nothing else. */
  lemma DissociationClears(t: Tree, u: Tree, port: nat, leaf: nat)
    requires Unbinds(t, u, port, leaf)
    ensures u.queueIds == t.queueIds && u.sgIds == t.sgIds && u.queues.Keys == t.queues.Keys && u.sgs.Keys == t.sgs.Keys
    ensures forall k :: k in t.queues ==>
              if k.port == port then
                && u.queues[k].ndi == NDI_NULL && !u.queues[k].created && u.queues[k].id == t.queues[k].id
                && u.queues[k].parent == t.queues[k].parent && u.queues[k].shadows == t.queues[k].shadows
              else u.queues[k] == t.queues[k]
    ensures forall s :: s in t.sgs ==>
              if t.sgs[s].port == port && t.sgs[s].level == leaf then
                && u.sgs[s].ndi == NDI_NULL && !u.sgs[s].created && u.sgs[s].port == port && u.sgs[s].level == leaf
                && u.sgs[s].profile == t.sgs[s].profile && u.sgs[s].maxChild == t.sgs[s].maxChild
                && u.sgs[s].parent == t.sgs[s].parent && u.sgs[s].children == t.sgs[s].children
              else u.sgs[s] == t.sgs[s]
  {}

  /** Nothing of the port has a hardware side. */
  ghost predicate PortUnbound(t: Tree, port: nat) {
    && (forall k :: k in t.queues && k.port == port ==> t.queues[k].ndi == NDI_NULL && !t.queues[k].created)
    && (forall s :: s in t.sgs && t.sgs[s].port == port ==> t.sgs[s].ndi == NDI_NULL && !t.sgs[s].created)
  }

  /** No shadow queues and numbers of children but those known before. */
  ghost predicate SameCounts(t: Tree, u: Tree)
    requires u.queues.Keys == t.queues.Keys && u.sgs.Keys == t.sgs.Keys
  {
    && (forall k :: k in t.queues ==> u.queues[k].shadows == t.queues[k].shadows)
    && (forall s :: s in t.sgs ==> u.sgs[s].maxChild == t.sgs[s].maxChild)
  }

  /**
   Dissociating a port undoes its association exactly when the association brought no shadow queues and
   no numbers of children: these stay, and everything else is restored always.
   */
  lemma DissociationUndoesAssociation(t: Tree, u: Tree, v: Tree, port: nat, leaf: nat)
    requires PortUnbound(t, port) && Binds(t, u, port, leaf) && Unbinds(u, v, port, leaf)
    ensures v.queues.Keys == t.queues.Keys && v.sgs.Keys == t.sgs.Keys
    ensures forall k :: k in t.queues ==> v.queues[k] == t.queues[k].(shadows := u.queues[k].shadows)
    ensures forall s :: s in t.sgs ==> v.sgs[s] == t.sgs[s].(maxChild := u.sgs[s].maxChild)
    ensures v == t <==> SameCounts(t, u)
  {
    if SameCounts(t, u) {
      assert v.queues == t.queues;
      assert v.sgs == t.sgs;
    }
  }
}
