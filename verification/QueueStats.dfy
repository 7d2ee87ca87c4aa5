/**
 Reading queue statistics: when the hardware is synchronised before a snapshot counter is read and
 cleared, over one whole request.
 */
module QueueStats {
  import opened Wrappers
  import opened NasIds
  import opened OrderedKeys
  import opened QosRows

  /** A queue as the walk sees it, and whether its port is virtual. */
  datatype StatQueue = StatQueue(key: Key, shadows: seq<NdiId>, virtual: bool)

  /** The key attributes of a request; None when absent. */
  datatype Request = Request(port: Option<nat>, kind: Option<nat>, number: Option<nat>, mmu: Option<nat>,
                             snapshot: Option<bool>)

  datatype Mode = Sync | Read | ReadAndClear

  datatype Call = Call(queue: StatQueue, mmu: nat, snapshot: bool, mode: Mode)

  /** A hardware call made, and whether it succeeded. */
  datatype Event = Event(call: Call, ok: bool)

  /** What the hardware answers to the n-th call of the request. */
  type Hardware = (nat, Call) -> bool

  datatype Flags = Flags(ucast: bool, mcast: bool)

  datatype Progress = Progress(flags: Flags, trace: seq<Event>)

  const NOTHING: Progress := Progress(Flags(false, false), [])

  // ---- One queue ----

  /** get_shadow_queue_id */
  function ShadowId(q: StatQueue, mmu: nat): NdiId {
    if 0 < mmu <= |q.shadows| then q.shadows[mmu - 1] else NDI_NULL
  }

  predicate Present(q: StatQueue, mmu: nat) { mmu == 0 || ShadowId(q, mmu) != NDI_NULL }

  /** nas_qos_cps_api_one_queue_stat_read: the calls so far, and its return code. */
  function OneRead(trace: seq<Event>, call: Call, support: bool, hw: Hardware): (seq<Event>, bool) {
    if (call.snapshot && !support) || !Present(call.queue, call.mmu) then (trace, true)
    else (trace + [Event(call, hw(|trace|, call))], hw(|trace|, call))
  }

  /** A sync is due for a queue of this type. */
  predicate Due(kind: nat, f: Flags) {
    || (kind == UCAST && !f.ucast)
    || (kind == MULTICAST && !f.mcast)
    || (kind == ANYCAST && !f.mcast && !f.ucast)
  }

  function Raise(kind: nat, f: Flags): Flags {
    if kind == UCAST then f.(ucast := true)
    else if kind == MULTICAST then f.(mcast := true)
    else Flags(true, true)
  }

  function Mmu(r: Request): nat { if r.mmu.Some? then r.mmu.value else 0 }

  /** Snapshot counters are asked for, alone or beside the others. */
  predicate WantsSnapshot(r: Request) { r.snapshot.None? || r.snapshot.value }

  predicate OnlySnapshot(r: Request) { r.snapshot.Some? && r.snapshot.value }

  /** The sync before a queue's reads, and whether the walk goes on to read it. */
  function SyncStep(p: Progress, q: StatQueue, r: Request, support: bool, hw: Hardware): (Progress, bool) {
    if support && WantsSnapshot(r) && Due(q.key.kind, p.flags) then
      var (trace, ok) := OneRead(p.trace, Call(q, Mmu(r), OnlySnapshot(r), Sync), support, hw);
      if ok then (Progress(Raise(q.key.kind, p.flags), trace), true) else (p.(trace := trace), false)
    else (p, true)
  }

  /** The reads of a queue on one MMU. */
  function ReadAt(trace: seq<Event>, q: StatQueue, index: nat, r: Request, support: bool, hw: Hardware): seq<Event> {
    if r.mmu.Some? && r.mmu.value != index then trace
    else
      match r.snapshot
      case Some(snapshot) =>
        OneRead(trace, Call(q, index, snapshot, if snapshot then ReadAndClear else Read), support, hw).0
      case None =>
        var (after, ok) := OneRead(trace, Call(q, index, false, Read), support, hw);
        if ok then OneRead(after, Call(q, index, true, ReadAndClear), support, hw).0 else after
  }

  /** The reads on MMUs 0..n-1. */
  function ReadBelow(trace: seq<Event>, q: StatQueue, n: nat, r: Request, support: bool, hw: Hardware): seq<Event> {
    if n == 0 then trace else ReadAt(ReadBelow(trace, q, n - 1, r, support, hw), q, n - 1, r, support, hw)
  }

  predicate Selected(q: StatQueue, r: Request) {
    && (r.port.Some? ==> r.port.value == q.key.port) && !q.virtual
    && (r.kind.Some? ==> r.kind.value == q.key.kind)
    && (r.number.Some? ==> r.number.value == q.key.local)
  }

  function QueueStep(p: Progress, q: StatQueue, r: Request, support: bool, hw: Hardware): Progress {
    if !Selected(q, r) then p
    else
      var (synced, go) := SyncStep(p, q, r, support, hw);
      if go then synced.(trace := ReadBelow(synced.trace, q, |q.shadows| + 1, r, support, hw)) else synced
  }

  function Walk(qs: seq<StatQueue>, r: Request, support: bool, hw: Hardware): Progress {
    if qs == [] then NOTHING
    else QueueStep(Walk(qs[..|qs| - 1], r, support, hw), qs[|qs| - 1], r, support, hw)
  }

  // ---- The whole request ----

  predicate NamesOneQueue(r: Request) { r.port.Some? && r.kind.Some? && r.number.Some? }

  /** The hardware calls of a request that names one queue; `found` is that queue. */
  function ReadExact(found: Option<StatQueue>, r: Request, support: bool, hw: Hardware): seq<Event> {
    if found.None? || found.value.virtual then []
    else if OnlySnapshot(r) then
      var (trace, ok) := OneRead([], Call(found.value, Mmu(r), true, Sync), support, hw);
      if ok then OneRead(trace, Call(found.value, Mmu(r), true, ReadAndClear), support, hw).0 else trace
    else OneRead([], Call(found.value, Mmu(r), false, Read), support, hw).0
  }

  /** All hardware calls of a request. `qs` is the queue table in key order. */
  function ReadStats(qs: seq<StatQueue>, found: Option<StatQueue>, r: Request, support: bool,
                     hw: Hardware): seq<Event> {
    if OnlySnapshot(r) && !support then []
    else if NamesOneQueue(r) then ReadExact(found, r, support, hw)
    else Walk(qs, r, support, hw).trace
  }

  method OneQueueStatRead(trace: seq<Event>, call: Call, support: bool, hw: Hardware)
    returns (after: seq<Event>, ok: bool)
    ensures (after, ok) == OneRead(trace, call, support, hw)
  {
    if call.snapshot && !support {
      return trace, true;
    }
    if call.mmu != 0 && ShadowId(call.queue, call.mmu) == NDI_NULL {
      return trace, true;
    }
    ok := hw(|trace|, call);
    after := trace + [Event(call, ok)];
  }

  /** nas_qos_cps_api_queue_stat_read, its wildcard branch: the walk with its two flags. */
  method QueueStatWalk(qs: seq<StatQueue>, r: Request, support: bool, hw: Hardware) returns (trace: seq<Event>)
    ensures trace == Walk(qs, r, support, hw).trace
  {
    trace := [];
    var ucastDone, mcastDone := false, false;
    for i := 0 to |qs|
      invariant Progress(Flags(ucastDone, mcastDone), trace) == Walk(qs[..i], r, support, hw)
    {
      var q := qs[i];
      assert qs[..i + 1][..i] == qs[..i] && qs[..i + 1][i] == q;
      ghost var p := Walk(qs[..i], r, support, hw);
      assert Walk(qs[..i + 1], r, support, hw) == QueueStep(p, q, r, support, hw);
      if Selected(q, r) {
        var go := true;
        if support && (OnlySnapshot(r) || r.snapshot.None?) && Due(q.key.kind, Flags(ucastDone, mcastDone)) {
          trace, go := OneQueueStatRead(trace, Call(q, Mmu(r), OnlySnapshot(r), Sync), support, hw);
          if go {
            if q.key.kind == UCAST {
              ucastDone := true;
            } else if q.key.kind == MULTICAST {
              mcastDone := true;
            } else {
              ucastDone, mcastDone := true, true;
            }
          }
        }
        assert (Progress(Flags(ucastDone, mcastDone), trace), go) == SyncStep(p, q, r, support, hw);
        if go {
          trace := ReadAll(trace, q, r, support, hw);
        }
      }
    }
    assert qs[..|qs|] == qs;
  }

  method ReadAll(before: seq<Event>, q: StatQueue, r: Request, support: bool, hw: Hardware) returns (trace: seq<Event>)
    ensures trace == ReadBelow(before, q, |q.shadows| + 1, r, support, hw)
  {
    trace := before;
    var index := 0;
    while index <= |q.shadows|
      invariant 0 <= index <= |q.shadows| + 1
      invariant trace == ReadBelow(before, q, index, r, support, hw)
    {
      if r.mmu.None? || r.mmu.value == index {
        var ok: bool;
        if r.snapshot.Some? {
          var mode := if r.snapshot.value then ReadAndClear else Read;
          trace, ok := OneQueueStatRead(trace, Call(q, index, r.snapshot.value, mode), support, hw);
        } else {
          trace, ok := OneQueueStatRead(trace, Call(q, index, false, Read), support, hw);
          if ok {
            trace, ok := OneQueueStatRead(trace, Call(q, index, true, ReadAndClear), support, hw);
          }
        }
      }
      index := index + 1;
    }
  }

  // ---- The property ----

  /** A sync on a queue of one type refreshes the counters of queues of another. */
  predicate Covers(synced: nat, read: nat) {
    || (read == UCAST && (synced == UCAST || synced == ANYCAST))
    || (read == MULTICAST && (synced == MULTICAST || synced == ANYCAST))
    || (read == ANYCAST && (synced == UCAST || synced == MULTICAST || synced == ANYCAST))
  }

  /** A successful hardware sync covering the type. */
  predicate SyncFor(e: Event, kind: nat) {
    e.call.mode.Sync? && e.ok && Covers(e.call.queue.key.kind, kind)
  }

  predicate SyncDone(trace: seq<Event>, kind: nat) {
    exists j :: 0 <= j < |trace| && SyncFor(trace[j], kind)
  }

  /** Every read-and-clear comes after a successful sync covering its queue's type. */
  predicate Synced(trace: seq<Event>) {
    forall i :: 0 <= i < |trace| && trace[i].call.mode.ReadAndClear? ==>
      SyncDone(trace[..i], trace[i].call.queue.key.kind)
  }

  function SuccessfulSyncs(trace: seq<Event>): nat {
    if trace == [] then 0
    else
      var last := trace[|trace| - 1];
      SuccessfulSyncs(trace[..|trace| - 1]) + (if last.call.mode.Sync? && last.ok then 1 else 0)
  }

  // ---- How traces grow ----

  lemma SyncDoneGrows(trace: seq<Event>, e: Event, kind: nat)
    ensures SyncDone(trace + [e], kind) <==> SyncDone(trace, kind) || SyncFor(e, kind)
  {
    var all := trace + [e];
    assert all[|trace|] == e;
    assert forall i :: 0 <= i < |trace| ==> all[i] == trace[i];
  }

  lemma SyncedGrows(trace: seq<Event>, e: Event)
    ensures Synced(trace + [e]) <==> Synced(trace) && (e.call.mode.ReadAndClear? ==>
              SyncDone(trace, e.call.queue.key.kind))
  {
    var all := trace + [e];
    assert all[|trace|] == e && all[..|trace|] == trace;
    forall i | 0 <= i < |trace| ensures all[i] == trace[i] && all[..i] == trace[..i] {}
  }

  /** A trace t extends a trace by reads only, and the read-and-clears among them are allowed. */
  ghost predicate ReadsAfter(before: seq<Event>, after: seq<Event>, kind: nat) {
    && (forall k :: SyncDone(before, k) <==> SyncDone(after, k))
    && SuccessfulSyncs(before) == SuccessfulSyncs(after)
    && (Synced(before) && SyncDone(before, kind) ==> Synced(after))
  }

  lemma ReadsAfterBoth(first: seq<Event>, second: seq<Event>, third: seq<Event>, kind: nat)
    requires ReadsAfter(first, second, kind) && ReadsAfter(second, third, kind)
    ensures ReadsAfter(first, third, kind)
  {}

  lemma OneReadReads(trace: seq<Event>, call: Call, support: bool, hw: Hardware)
    requires !call.mode.Sync?
    ensures ReadsAfter(trace, OneRead(trace, call, support, hw).0, call.queue.key.kind)
  {}

  lemma ReadAtReads(trace: seq<Event>, q: StatQueue, index: nat, r: Request, support: bool, hw: Hardware)
    ensures ReadsAfter(trace, ReadAt(trace, q, index, r, support, hw), q.key.kind)
  {
    if r.snapshot.Some? {
      OneReadReads(trace, Call(q, index, r.snapshot.value, if r.snapshot.value then ReadAndClear else Read), support,
                   hw);
    } else {
      var first := Call(q, index, false, Read);
      OneReadReads(trace, first, support, hw);
      OneReadReads(OneRead(trace, first, support, hw).0, Call(q, index, true, ReadAndClear), support, hw);
    }
  }

  lemma {:induction false} ReadBelowReads(trace: seq<Event>, q: StatQueue, n: nat, r: Request, support: bool,
                                          hw: Hardware)
    ensures ReadsAfter(trace, ReadBelow(trace, q, n, r, support, hw), q.key.kind)
  {
    if n > 0 {
      ReadsAfterBoth(trace, ReadBelow(trace, q, n - 1, r, support, hw), ReadBelow(trace, q, n, r, support, hw),
                     q.key.kind) by {
        ReadBelowReads(trace, q, n - 1, r, support, hw);
        ReadAtReads(ReadBelow(trace, q, n - 1, r, support, hw), q, n - 1, r, support, hw);
      }
    }
  }

  /** A request for one MMU makes no read of a queue absent from it. */
  lemma {:induction false} AbsentReadsNothing(trace: seq<Event>, q: StatQueue, n: nat, r: Request, support: bool,
                                              hw: Hardware)
    requires r.mmu.Some? && !Present(q, r.mmu.value)
    ensures ReadBelow(trace, q, n, r, support, hw) == trace
  {
    if n > 0 {
      AbsentReadsNothing(trace, q, n - 1, r, support, hw);
    }
  }

  /** Without snapshot support, or when only plain counters are asked for, nothing is read and cleared. */
  lemma {:induction false} PlainReadsOnly(trace: seq<Event>, q: StatQueue, n: nat, r: Request, support: bool,
                                          hw: Hardware)
    requires Synced(trace) && (!support || !WantsSnapshot(r))
    ensures Synced(ReadBelow(trace, q, n, r, support, hw))
  {
    if n > 0 {
      PlainReadsOnly(trace, q, n - 1, r, support, hw);
      var before := ReadBelow(trace, q, n - 1, r, support, hw);
      var call := Call(q, n - 1, false, Read);
      SyncedGrows(before, Event(call, hw(|before|, call)));
    }
  }

  // ---- At most two syncs ----

  function Raised(f: Flags): nat { (if f.ucast then 1 else 0) + (if f.mcast then 1 else 0) }

  lemma SyncRaises(p: Progress, q: StatQueue, r: Request, support: bool, hw: Hardware)
    requires SuccessfulSyncs(p.trace) <= Raised(p.flags)
    ensures SuccessfulSyncs(SyncStep(p, q, r, support, hw).0.trace) <= Raised(SyncStep(p, q, r, support, hw).0.flags)
  {}

  lemma {:induction false} SyncsBoundedByFlags(qs: seq<StatQueue>, r: Request, support: bool, hw: Hardware)
    ensures SuccessfulSyncs(Walk(qs, r, support, hw).trace) <= Raised(Walk(qs, r, support, hw).flags)
  {
    if qs != [] {
      var front, q := qs[..|qs| - 1], qs[|qs| - 1];
      SyncsBoundedByFlags(front, r, support, hw);
      var p := Walk(front, r, support, hw);
      SyncRaises(p, q, r, support, hw);
      ReadBelowReads(SyncStep(p, q, r, support, hw).0.trace, q, |q.shadows| + 1, r, support, hw);
    }
  }

  /** At most two syncs succeed in one request, whatever the hardware answers. */
  lemma AtMostTwoSyncs(qs: seq<StatQueue>, found: Option<StatQueue>, r: Request, support: bool, hw: Hardware)
    ensures SuccessfulSyncs(ReadStats(qs, found, r, support, hw)) <= 2
  {
    SyncsBoundedByFlags(qs, r, support, hw);
    if NamesOneQueue(r) {
      ExactSyncs(found, r, support, hw);
    }
  }

  lemma ExactSyncs(found: Option<StatQueue>, r: Request, support: bool, hw: Hardware)
    ensures SuccessfulSyncs(ReadExact(found, r, support, hw)) <= 2
  {
    if found.Some? {
      var trace := ReadExact(found, r, support, hw);
      assert |trace| <= 2;
      SyncsAtMostLength(trace);
    }
  }

  lemma {:induction false} SyncsAtMostLength(trace: seq<Event>)
    ensures SuccessfulSyncs(trace) <= |trace|
  {
    if trace != [] {
      SyncsAtMostLength(trace[..|trace| - 1]);
    }
  }

  // ---- When every read-and-clear is synced ----

  /**
   The flags as raised only by queues absent from the requested MMU: their sync makes no hardware
   call and reports success.
   */
  function VacuousFlags(qs: seq<StatQueue>, r: Request): Flags {
    if qs == [] then Flags(false, false)
    else
      var f, q := VacuousFlags(qs[..|qs| - 1], r), qs[|qs| - 1];
      if Selected(q, r) && !Present(q, Mmu(r)) && Due(q.key.kind, f) then Raise(q.key.kind, f) else f
  }

  /** No selected queue present on the MMU finds its sync already taken by an absent one. */
  predicate NoVacuousSync(qs: seq<StatQueue>, r: Request) {
    forall i :: 0 <= i < |qs| && Selected(qs[i], r) && Present(qs[i], Mmu(r)) ==>
      Due(qs[i].key.kind, VacuousFlags(qs[..i], r))
  }

  /** How the real flags relate to the vacuous ones and the syncs made. */
  predicate FlagsExplained(p: Progress, vacuous: Flags) {
    && (p.flags.ucast ==> vacuous.ucast || SyncDone(p.trace, UCAST))
    && (p.flags.mcast ==> vacuous.mcast || SyncDone(p.trace, MULTICAST))
    && (vacuous.ucast || vacuous.mcast ==> p.flags.ucast || p.flags.mcast)
  }

  lemma CoversAny(trace: seq<Event>)
    ensures SyncDone(trace, UCAST) || SyncDone(trace, MULTICAST) ==> SyncDone(trace, ANYCAST)
  {}

  /** The sync of a present queue. */
  lemma PresentSync(p: Progress, vacuous: Flags, q: StatQueue, r: Request, hw: Hardware)
    requires FlagsExplained(p, vacuous) && Synced(p.trace)
    requires WantsSnapshot(r) && Present(q, Mmu(r)) && Due(q.key.kind, vacuous)
    ensures var (after, go) := SyncStep(p, q, r, true, hw);
            FlagsExplained(after, vacuous) && Synced(after.trace) && (go ==> SyncDone(after.trace, q.key.kind))
  {
    var kind := q.key.kind;
    CoversAny(p.trace);
    if Due(kind, p.flags) {
      var call := Call(q, Mmu(r), OnlySnapshot(r), Sync);
      var e := Event(call, hw(|p.trace|, call));
      SyncedGrows(p.trace, e);
      SyncDoneGrows(p.trace, e, UCAST);
      SyncDoneGrows(p.trace, e, MULTICAST);
      SyncDoneGrows(p.trace, e, kind);
    }
  }

  lemma PresentStep(p: Progress, vacuous: Flags, q: StatQueue, r: Request, hw: Hardware)
    requires FlagsExplained(p, vacuous) && Synced(p.trace)
    requires WantsSnapshot(r) && Present(q, Mmu(r)) && Due(q.key.kind, vacuous)
    ensures FlagsExplained(QueueStep(p, q, r, true, hw), vacuous) && Synced(QueueStep(p, q, r, true, hw).trace)
  {
    PresentSync(p, vacuous, q, r, hw);
    ReadBelowReads(SyncStep(p, q, r, true, hw).0.trace, q, |q.shadows| + 1, r, true, hw);
  }

  lemma AbsentStep(p: Progress, vacuous: Flags, q: StatQueue, r: Request, hw: Hardware)
    requires FlagsExplained(p, vacuous) && Selected(q, r) && WantsSnapshot(r) && !Present(q, Mmu(r))
    ensures FlagsExplained(QueueStep(p, q, r, true, hw),
            if Due(q.key.kind, vacuous) then Raise(q.key.kind, vacuous) else vacuous)
    ensures QueueStep(p, q, r, true, hw).trace == p.trace
  {
    AbsentReadsNothing(p.trace, q, |q.shadows| + 1, r, true, hw);
  }

  lemma {:induction false} WalkSynced(qs: seq<StatQueue>, r: Request, hw: Hardware)
    requires WantsSnapshot(r) && NoVacuousSync(qs, r)
    ensures FlagsExplained(Walk(qs, r, true, hw), VacuousFlags(qs, r)) && Synced(Walk(qs, r, true, hw).trace)
  {
    if qs != [] {
      var n := |qs| - 1;
      var front, q := qs[..n], qs[n];
      forall i | 0 <= i < n ensures front[i] == qs[i] && front[..i] == qs[..i] {}
      WalkSynced(front, r, hw);
      var p, vacuous := Walk(front, r, true, hw), VacuousFlags(front, r);
      if Selected(q, r) {
        if Present(q, Mmu(r)) {
          PresentStep(p, vacuous, q, r, hw);
        } else {
          AbsentStep(p, vacuous, q, r, hw);
        }
      }
    }
  }

  lemma {:induction false} WalkPlain(qs: seq<StatQueue>, r: Request, support: bool, hw: Hardware)
    requires !support || !WantsSnapshot(r)
    ensures Synced(Walk(qs, r, support, hw).trace)
  {
    if qs != [] {
      var front, q := qs[..|qs| - 1], qs[|qs| - 1];
      WalkPlain(front, r, support, hw);
      PlainReadsOnly(Walk(front, r, support, hw).trace, q, |q.shadows| + 1, r, support, hw);
    }
  }

  // ---- Hardware whose syncs all fail ----

  function SyncsFail(): Hardware {
    (n: nat, call: Call) => !call.mode.Sync?
  }

  predicate NoSync(trace: seq<Event>) {
    forall i :: 0 <= i < |trace| ==> !(trace[i].call.mode.Sync? && trace[i].ok)
  }

  predicate Clears(trace: seq<Event>) {
    exists i :: 0 <= i < |trace| && trace[i].call.mode.ReadAndClear?
  }

  lemma NoSyncClears(trace: seq<Event>)
    requires NoSync(trace) && Clears(trace)
    ensures !Synced(trace)
  {}

  lemma OneReadWhenSyncsFail(trace: seq<Event>, call: Call)
    requires NoSync(trace)
    ensures var (after, ok) := OneRead(trace, call, true, SyncsFail());
            && NoSync(after) && (Clears(trace) ==> Clears(after))
            && (call.mode.ReadAndClear? && Present(call.queue, call.mmu) ==> Clears(after))
            && (!call.mode.Sync? || !Present(call.queue, call.mmu) ==> ok)
            && (call.mode.Sync? && Present(call.queue, call.mmu) ==> !ok)
  {
    var e := Event(call, !call.mode.Sync?);
    assert (trace + [e])[|trace|] == e;
    assert forall i :: 0 <= i < |trace| ==> (trace + [e])[i] == trace[i];
  }

  lemma {:induction false} ReadsWhenSyncsFail(trace: seq<Event>, q: StatQueue, n: nat, r: Request)
    requires NoSync(trace) && WantsSnapshot(r)
    ensures var after := ReadBelow(trace, q, n, r, true, SyncsFail());
            && NoSync(after) && (Clears(trace) ==> Clears(after))
            && (Mmu(r) < n && Present(q, Mmu(r)) ==> Clears(after))
  {
    if n > 0 {
      ReadsWhenSyncsFail(trace, q, n - 1, r);
      var before := ReadBelow(trace, q, n - 1, r, true, SyncsFail());
      var plain := Call(q, n - 1, false, Read);
      OneReadWhenSyncsFail(before, plain);
      OneReadWhenSyncsFail(before, Call(q, n - 1, true, ReadAndClear));
      OneReadWhenSyncsFail(OneRead(before, plain, true, SyncsFail()).0, Call(q, n - 1, true, ReadAndClear));
    }
  }

  /** Then the flags are exactly the vacuous ones, and a queue that finds its sync taken is read and cleared. */
  lemma {:induction false} WalkWhenSyncsFail(qs: seq<StatQueue>, r: Request)
    requires WantsSnapshot(r)
    ensures var p := Walk(qs, r, true, SyncsFail());
            p.flags == VacuousFlags(qs, r) && NoSync(p.trace) && (!NoVacuousSync(qs, r) ==> Clears(p.trace))
  {
    if qs != [] {
      var n := |qs| - 1;
      var front, q := qs[..n], qs[n];
      forall i | 0 <= i < n ensures front[i] == qs[i] && front[..i] == qs[..i] {}
      WalkWhenSyncsFail(front, r);
      var p := Walk(front, r, true, SyncsFail());
      if Selected(q, r) {
        OneReadWhenSyncsFail(p.trace, Call(q, Mmu(r), OnlySnapshot(r), Sync));
        ReadsWhenSyncsFail(SyncStep(p, q, r, true, SyncsFail()).0.trace, q, |q.shadows| + 1, r);
      }
    }
  }

  /**
   Whatever the hardware answers, every read-and-clear of a wildcard read follows a successful sync
   covering its type, exactly when no selected queue on the requested MMU finds its sync already
   taken by a queue that is absent there. The condition is on the table and the request alone.
   */
  lemma SyncedWhateverTheHardware(qs: seq<StatQueue>, found: Option<StatQueue>, r: Request, support: bool)
    requires !NamesOneQueue(r)
    ensures (forall hw: Hardware :: Synced(ReadStats(qs, found, r, support, hw))) <==>
            (support && WantsSnapshot(r) ==> NoVacuousSync(qs, r))
  {
    if support && WantsSnapshot(r) {
      if NoVacuousSync(qs, r) {
        forall hw: Hardware ensures Synced(ReadStats(qs, found, r, support, hw)) {
          WalkSynced(qs, r, hw);
        }
      } else {
        WalkWhenSyncsFail(qs, r);
        NoSyncClears(Walk(qs, r, true, SyncsFail()).trace);
        assert !Synced(ReadStats(qs, found, r, support, SyncsFail()));
      }
    } else {
      forall hw: Hardware ensures Synced(ReadStats(qs, found, r, support, hw)) {
        WalkPlain(qs, r, support, hw);
      }
    }
  }

  /** A request that names one queue syncs it first, always. */
  lemma ExactReadSynced(qs: seq<StatQueue>, found: Option<StatQueue>, r: Request, support: bool, hw: Hardware)
    requires NamesOneQueue(r) && (found.Some? ==> KnownKind(found.value))
    ensures Synced(ReadStats(qs, found, r, support, hw))
  {
    if found.Some? {
      var q := found.value;
      var call := Call(q, Mmu(r), true, Sync);
      var sync := Event(call, hw(0, call));
      SyncedGrows([], sync);
      SyncDoneGrows([], sync, q.key.kind);
      assert [] + [sync] == [sync];
      var read := Call(q, Mmu(r), true, ReadAndClear);
      SyncedGrows([sync], Event(read, hw(1, read)));
    }
  }

  predicate KnownKind(q: StatQueue) { q.key.kind == UCAST || q.key.kind == MULTICAST || q.key.kind == ANYCAST }

  /** So MMU 0, or one on which every selected queue is present, is safe for queues of the known types. */
  lemma SyncedWhenAllPresent(qs: seq<StatQueue>, found: Option<StatQueue>, r: Request, support: bool, hw: Hardware)
    requires !NamesOneQueue(r)
    requires forall i :: 0 <= i < |qs| && Selected(qs[i], r) ==> KnownKind(qs[i]) && Present(qs[i], Mmu(r))
    ensures Synced(ReadStats(qs, found, r, support, hw))
  {
    forall i | 0 <= i <= |qs| ensures VacuousFlags(qs[..i], r) == Flags(false, false) {
      NoVacuousFlags(qs[..i], r);
    }
    SyncedWhateverTheHardware(qs, found, r, support);
  }

  lemma {:induction false} NoVacuousFlags(qs: seq<StatQueue>, r: Request)
    requires forall i :: 0 <= i < |qs| && Selected(qs[i], r) ==> Present(qs[i], Mmu(r))
    ensures VacuousFlags(qs, r) == Flags(false, false)
  {
    if qs != [] {
      NoVacuousFlags(qs[..|qs| - 1], r);
    }
  }

  /** Two unicast queues, the first absent from MMU 1: the second is read and cleared with no sync at all. */
  lemma AbsentQueueTakesTheSync()
    ensures var qs := [StatQueue(Key(7, 0, UCAST), [NDI_NULL], false), StatQueue(Key(7, 1, UCAST), [44], false)];
            var r := Request(Some(7), None, None, Some(1), Some(true));
            exists hw: Hardware :: !Synced(ReadStats(qs, None, r, true, hw))
  {
    var qs := [StatQueue(Key(7, 0, UCAST), [NDI_NULL], false), StatQueue(Key(7, 1, UCAST), [44], false)];
    var r := Request(Some(7), None, None, Some(1), Some(true));
    assert qs[..1] == [qs[0]] && qs[..1][..0] == [];
    assert VacuousFlags(qs[..1], r) == Flags(true, false);
    SyncedWhateverTheHardware(qs, None, r, true);
  }
}
