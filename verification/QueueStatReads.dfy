/** Which hardware calls a statistics read makes: each that is asked for, no other, and none twice. */
module QueueStatReads {
  import opened Wrappers
  import opened NasIds
  import opened OrderedKeys
  import opened QosRows
  import opened QueueStats

  predicate Made(trace: seq<Event>, call: Call) {
    exists i :: 0 <= i < |trace| && trace[i].call == call
  }

  predicate Failed(trace: seq<Event>, call: Call) {
    exists i :: 0 <= i < |trace| && trace[i].call == call && !trace[i].ok
  }

  /** Every event holds what the hardware answers to the call at its place. */
  ghost predicate Honest(trace: seq<Event>, hw: Hardware) {
    forall i :: 0 <= i < |trace| ==> trace[i].ok == hw(i, trace[i].call)
  }

  predicate Matches(asked: Option<nat>, has: nat) { asked.None? || asked.value == has }

  /** The request asks for the queue, which is on a real port. */
  predicate Wanted(q: StatQueue, r: Request) {
    Matches(r.port, q.key.port) && Matches(r.kind, q.key.kind) && Matches(r.number, q.key.local) && !q.virtual
  }

  /** The queue has counters on the MMU: on 0 always, on others as a shadow queue. */
  predicate On(q: StatQueue, mmu: nat) { mmu == 0 || (mmu <= |q.shadows| && q.shadows[mmu - 1] != NDI_NULL) }

  lemma OneReadMakes(trace: seq<Event>, call: Call, support: bool, hw: Hardware)
    ensures var (after, ok) := OneRead(trace, call, support, hw);
            && (Honest(trace, hw) ==> Honest(after, hw))
            && (forall c :: Made(after, c) ==> Made(trace, c) || c == call)
            && (forall c :: (Made(trace, c) ==> Made(after, c)) && (Failed(trace, c) ==> Failed(after, c)))
            && (ok || Failed(after, call))
            && ((call.snapshot ==> support) && On(call.queue, call.mmu) ==> Made(after, call))
  {
    var e := Event(call, hw(|trace|, call));
    assert (trace + [e])[|trace|] == e;
    assert forall i :: 0 <= i < |trace| ==> (trace + [e])[i] == trace[i];
  }

  // ---- Nothing is left unread ----

  /** The reads of one queue on one MMU that a request asks for. */
  predicate Asked(r: Request, support: bool, call: Call) {
    && (r.mmu.Some? ==> r.mmu.value == call.mmu)
    && (call.mode == if call.snapshot then ReadAndClear else Read)
    && (r.snapshot.Some? ==> r.snapshot.value == call.snapshot)
    && (call.snapshot ==> support) && On(call.queue, call.mmu)
  }

  /** The sync of the read's queue failed, or the plain read that goes before it in a request for both. */
  predicate Excused(trace: seq<Event>, r: Request, call: Call) {
    || Failed(trace, Call(call.queue, Mmu(r), OnlySnapshot(r), Sync))
    || (r.snapshot.None? && call.snapshot && Failed(trace, Call(call.queue, call.mmu, false, Read)))
  }

  predicate Answered(trace: seq<Event>, r: Request, call: Call) { Made(trace, call) || Excused(trace, r, call) }

  lemma ReadAtMakes(trace: seq<Event>, q: StatQueue, index: nat, r: Request, support: bool, hw: Hardware, call: Call)
    ensures var after := ReadAt(trace, q, index, r, support, hw);
            && (Answered(trace, r, call) ==> Answered(after, r, call))
            && (Asked(r, support, call) && call.queue == q && call.mmu == index ==> Answered(after, r, call))
  {
    var plain := Call(q, index, false, Read);
    if r.snapshot.Some? {
      var mode := if r.snapshot.value then ReadAndClear else Read;
      OneReadMakes(trace, Call(q, index, r.snapshot.value, mode), support, hw);
    } else {
      OneReadMakes(trace, plain, support, hw);
      OneReadMakes(OneRead(trace, plain, support, hw).0, Call(q, index, true, ReadAndClear), support, hw);
    }
  }

  lemma {:induction false} ReadBelowMakes(trace: seq<Event>, q: StatQueue, n: nat, r: Request, support: bool,
                                          hw: Hardware, call: Call)
    ensures var after := ReadBelow(trace, q, n, r, support, hw);
            && (Answered(trace, r, call) ==> Answered(after, r, call))
            && (Asked(r, support, call) && call.queue == q && call.mmu < n ==> Answered(after, r, call))
  {
    if n > 0 {
      ReadBelowMakes(trace, q, n - 1, r, support, hw, call);
      ReadAtMakes(ReadBelow(trace, q, n - 1, r, support, hw), q, n - 1, r, support, hw, call);
    }
  }

  lemma StepMakes(p: Progress, q: StatQueue, r: Request, support: bool, hw: Hardware, call: Call)
    ensures var after := QueueStep(p, q, r, support, hw).trace;
            && (Answered(p.trace, r, call) ==> Answered(after, r, call))
            && (Wanted(q, r) && Asked(r, support, call) && call.queue == q && call.mmu <= |q.shadows| ==>
                  Answered(after, r, call))
  {
    OneReadMakes(p.trace, Call(q, Mmu(r), OnlySnapshot(r), Sync), support, hw);
    ReadBelowMakes(SyncStep(p, q, r, support, hw).0.trace, q, |q.shadows| + 1, r, support, hw, call);
  }

  /**
   Whatever the hardware answers, a wildcard read makes every read asked for, of every selected queue
   on every MMU it is present on, but for those after a failed sync of the queue or plain read.
   */
  lemma {:induction false} AskedIsReadOrExcused(qs: seq<StatQueue>, r: Request, support: bool, hw: Hardware, i: nat,
                                                call: Call)
    requires i < |qs| && Wanted(qs[i], r) && call.queue == qs[i] && call.mmu <= |qs[i].shadows|
             && Asked(r, support, call)
    ensures Answered(Walk(qs, r, support, hw).trace, r, call)
  {
    var n := |qs| - 1;
    StepMakes(Walk(qs[..n], r, support, hw), qs[n], r, support, hw, call);
    if i < n {
      AskedIsReadOrExcused(qs[..n], r, support, hw, i, call);
    }
  }

  lemma ReadAtHonest(trace: seq<Event>, q: StatQueue, index: nat, r: Request, support: bool, hw: Hardware)
    requires Honest(trace, hw)
    ensures Honest(ReadAt(trace, q, index, r, support, hw), hw)
  {}

  lemma {:induction false} ReadBelowHonest(trace: seq<Event>, q: StatQueue, n: nat, r: Request, support: bool,
                                           hw: Hardware)
    requires Honest(trace, hw)
    ensures Honest(ReadBelow(trace, q, n, r, support, hw), hw)
  {
    if n > 0 {
      ReadBelowHonest(trace, q, n - 1, r, support, hw);
      ReadAtHonest(ReadBelow(trace, q, n - 1, r, support, hw), q, n - 1, r, support, hw);
    }
  }

  lemma {:induction false} WalkHonest(qs: seq<StatQueue>, r: Request, support: bool, hw: Hardware)
    ensures Honest(Walk(qs, r, support, hw).trace, hw)
  {
    if qs != [] {
      var front, q := qs[..|qs| - 1], qs[|qs| - 1];
      WalkHonest(front, r, support, hw);
      var p := Walk(front, r, support, hw);
      ReadBelowHonest(SyncStep(p, q, r, support, hw).0.trace, q, |q.shadows| + 1, r, support, hw);
    }
  }

  /** Hardware that accepts every call. */
  function Accepts(): Hardware {
    (n: nat, call: Call) => true
  }

  /** So when the hardware accepts, every read asked for is made. */
  lemma EverythingAskedIsRead(qs: seq<StatQueue>, r: Request, support: bool, i: nat, call: Call)
    requires i < |qs| && Wanted(qs[i], r) && call.queue == qs[i] && call.mmu <= |qs[i].shadows|
             && Asked(r, support, call)
    ensures Made(Walk(qs, r, support, Accepts()).trace, call)
  {
    AskedIsReadOrExcused(qs, r, support, Accepts(), i, call);
    WalkHonest(qs, r, support, Accepts());
  }

  // ---- Nothing is called twice ----

  ghost predicate NoRepeats(trace: seq<Event>) {
    forall i, j :: 0 <= i < j < |trace| ==> trace[i].call != trace[j].call
  }

  /** Of this queue, nothing but syncs and reads on MMUs 0..n-1 was called. */
  ghost predicate OnlyBelow(trace: seq<Event>, q: StatQueue, n: nat) {
    forall c :: Made(trace, c) && c.queue == q ==> c.mode.Sync? || c.mmu < n
  }

  lemma OneReadNoRepeat(trace: seq<Event>, call: Call, support: bool, hw: Hardware)
    requires NoRepeats(trace) && !Made(trace, call)
    ensures NoRepeats(OneRead(trace, call, support, hw).0)
  {}

  /** Reads of this queue below MMU n follow, none repeated. */
  ghost predicate NewReads(before: seq<Event>, after: seq<Event>, q: StatQueue, n: nat) {
    NoRepeats(after) && OnlyBelow(after, q, n) && forall c :: Made(after, c) ==> Made(before, c) || c.queue == q
  }

  lemma {:induction false} ReadBelowNoRepeat(trace: seq<Event>, q: StatQueue, n: nat, r: Request, support: bool,
                                             hw: Hardware)
    requires NewReads(trace, trace, q, 0)
    ensures NewReads(trace, ReadBelow(trace, q, n, r, support, hw), q, n)
  {
    if n > 0 {
      ReadBelowNoRepeat(trace, q, n - 1, r, support, hw);
      ReadAtNoRepeat(trace, ReadBelow(trace, q, n - 1, r, support, hw), q, n - 1, r, support, hw);
    }
  }

  lemma CallIsNew(before: seq<Event>, trace: seq<Event>, call: Call, n: nat, support: bool, hw: Hardware)
    requires NewReads(before, trace, call.queue, n) && !Made(trace, call) && call.mmu < n
    ensures NewReads(before, OneRead(trace, call, support, hw).0, call.queue, n)
  {
    OneReadMakes(trace, call, support, hw);
    OneReadNoRepeat(trace, call, support, hw);
  }

  lemma ReadAtNoRepeat(first: seq<Event>, trace: seq<Event>, q: StatQueue, index: nat, r: Request, support: bool,
                       hw: Hardware)
    requires NewReads(first, trace, q, index)
    ensures NewReads(first, ReadAt(trace, q, index, r, support, hw), q, index + 1)
  {
    assert NewReads(first, trace, q, index + 1);
    if r.snapshot.Some? {
      CallIsNew(first, trace, Call(q, index, r.snapshot.value, if r.snapshot.value then ReadAndClear else Read),
                index + 1, support, hw);
    } else {
      var plain, clear := Call(q, index, false, Read), Call(q, index, true, ReadAndClear);
      CallIsNew(first, trace, plain, index + 1, support, hw);
      OneReadMakes(trace, plain, support, hw);
      CallIsNew(first, OneRead(trace, plain, support, hw).0, clear, index + 1, support, hw);
    }
  }

  /** No hardware call is made twice in a wildcard read, whatever the hardware answers. */
  lemma {:induction false} NothingIsCalledTwice(qs: seq<StatQueue>, r: Request, support: bool, hw: Hardware)
    requires forall i, j :: 0 <= i < j < |qs| ==> qs[i] != qs[j]
    ensures NoRepeats(Walk(qs, r, support, hw).trace)
    ensures forall c :: Made(Walk(qs, r, support, hw).trace, c) ==> c.queue in qs
  {
    if qs != [] {
      var front, q := qs[..|qs| - 1], qs[|qs| - 1];
      NothingIsCalledTwice(front, r, support, hw);
      assert q !in front;
      if Selected(q, r) {
        var p := Walk(front, r, support, hw);
        var sync := Call(q, Mmu(r), OnlySnapshot(r), Sync);
        OneReadMakes(p.trace, sync, support, hw);
        OneReadNoRepeat(p.trace, sync, support, hw);
        ReadBelowNoRepeat(SyncStep(p, q, r, support, hw).0.trace, q, |q.shadows| + 1, r, support, hw);
      }
    }
  }

  // ---- Nothing else is called ----

  /**
   A call a request may make: of a queue it selects on a hardware port, on an MMU it asks for and the
   queue is present on; touching snapshot counters only with support; and clearing only snapshots.
   */
  predicate Warranted(r: Request, support: bool, c: Call) {
    && Wanted(c.queue, r) && On(c.queue, c.mmu) && (c.snapshot ==> support)
    && (r.mmu.Some? ==> c.mmu == r.mmu.value) && (c.mode.ReadAndClear? <==> c.snapshot && !c.mode.Sync?)
    && (c.mode.Sync? ==> support && WantsSnapshot(r)) && (c.snapshot ==> WantsSnapshot(r))
  }

  ghost predicate AllWarranted(trace: seq<Event>, r: Request, support: bool) {
    forall i :: 0 <= i < |trace| ==> Warranted(r, support, trace[i].call)
  }

  lemma ReadAtIsWarranted(trace: seq<Event>, q: StatQueue, index: nat, r: Request, support: bool, hw: Hardware)
    requires AllWarranted(trace, r, support) && Wanted(q, r)
    ensures AllWarranted(ReadAt(trace, q, index, r, support, hw), r, support)
  {}

  lemma {:induction false} ReadsAreWarranted(trace: seq<Event>, q: StatQueue, n: nat, r: Request, support: bool,
                                             hw: Hardware)
    requires AllWarranted(trace, r, support) && Wanted(q, r)
    ensures AllWarranted(ReadBelow(trace, q, n, r, support, hw), r, support)
  {
    if n > 0 {
      ReadsAreWarranted(trace, q, n - 1, r, support, hw);
      ReadAtIsWarranted(ReadBelow(trace, q, n - 1, r, support, hw), q, n - 1, r, support, hw);
    }
  }

  /** Every hardware call of a wildcard read is warranted, whatever the hardware answers. */
  lemma {:induction false} WalkIsWarranted(qs: seq<StatQueue>, r: Request, support: bool, hw: Hardware)
    ensures AllWarranted(Walk(qs, r, support, hw).trace, r, support)
  {
    if qs != [] {
      var front, q := qs[..|qs| - 1], qs[|qs| - 1];
      WalkIsWarranted(front, r, support, hw);
      if Selected(q, r) {
        var p := Walk(front, r, support, hw);
        var (synced, go) := SyncStep(p, q, r, support, hw);
        assert AllWarranted(synced.trace, r, support);
        ReadsAreWarranted(synced.trace, q, |q.shadows| + 1, r, support, hw);
      }
    }
  }

  // ---- Failures stop the reads that depend on them ----

  /** No read was made after the sync of its queue, or the plain read before it, had failed. */
  ghost predicate NoneExcused(trace: seq<Event>, r: Request) {
    forall c :: Made(trace, c) && !c.mode.Sync? ==> !Excused(trace, r, c)
  }

  function SyncOf(q: StatQueue, r: Request): Call { Call(q, Mmu(r), OnlySnapshot(r), Sync) }

  lemma OneReadFails(trace: seq<Event>, call: Call, support: bool, hw: Hardware)
    ensures var (after, ok) := OneRead(trace, call, support, hw);
            forall c :: Failed(after, c) <==> Failed(trace, c) || (c == call && !ok)
  {
    var e := Event(call, hw(|trace|, call));
    assert (trace + [e])[|trace|] == e;
    assert forall i :: 0 <= i < |trace| ==> (trace + [e])[i] == trace[i];
  }

  lemma ReadNotExcused(trace: seq<Event>, call: Call, r: Request, support: bool, hw: Hardware)
    requires NoneExcused(trace, r) && !call.mode.Sync? && !Excused(trace, r, call)
    requires forall c :: Made(trace, c) && c.snapshot && !c.mode.Sync? ==> call != Call(c.queue, c.mmu, false, Read)
    ensures NoneExcused(OneRead(trace, call, support, hw).0, r)
  {
    OneReadMakes(trace, call, support, hw);
    OneReadFails(trace, call, support, hw);
  }

  /** The reads of this queue below MMU n follow its sync, which did not fail. */
  ghost predicate ReadSoFar(first: seq<Event>, trace: seq<Event>, q: StatQueue, n: nat, r: Request) {
    NewReads(first, trace, q, n) && NoneExcused(trace, r) && !Failed(trace, SyncOf(q, r))
  }

  lemma ReadAtNotExcused(first: seq<Event>, trace: seq<Event>, q: StatQueue, index: nat, r: Request, support: bool,
                         hw: Hardware)
    requires ReadSoFar(first, trace, q, index, r)
    ensures ReadSoFar(first, ReadAt(trace, q, index, r, support, hw), q, index + 1, r)
  {
    ReadAtNoRepeat(first, trace, q, index, r, support, hw);
    var plain, clear := Call(q, index, false, Read), Call(q, index, true, ReadAndClear);
    var call := if r.snapshot == Some(true) then clear else plain;
    NothingFailedAt(trace, q, index, r);
    ReadNotExcused(trace, call, r, support, hw);
    OneReadFails(trace, call, support, hw);
    if r.snapshot.None? && OneRead(trace, plain, support, hw).1 {
      var after := OneRead(trace, plain, support, hw).0;
      ReadNotExcused(after, clear, r, support, hw);
      OneReadFails(after, clear, support, hw);
    }
  }

  /** Nothing was read on this MMU yet, so nothing failed there. */
  lemma NothingFailedAt(trace: seq<Event>, q: StatQueue, index: nat, r: Request)
    requires OnlyBelow(trace, q, index)
    ensures forall c :: Failed(trace, c) ==> Made(trace, c)
    ensures !Failed(trace, Call(q, index, false, Read)) && !Made(trace, Call(q, index, true, ReadAndClear))
  {}

  lemma {:induction false} ReadBelowNotExcused(trace: seq<Event>, q: StatQueue, n: nat, r: Request, support: bool,
                                               hw: Hardware)
    requires ReadSoFar(trace, trace, q, 0, r)
    ensures ReadSoFar(trace, ReadBelow(trace, q, n, r, support, hw), q, n, r)
  {
    if n > 0 {
      ReadBelowNotExcused(trace, q, n - 1, r, support, hw);
      ReadAtNotExcused(trace, ReadBelow(trace, q, n - 1, r, support, hw), q, n - 1, r, support, hw);
    }
  }

  /** The sync of a queue of which nothing was called before. */
  lemma SyncNotExcused(p: Progress, q: StatQueue, r: Request, support: bool, hw: Hardware)
    requires NoneExcused(p.trace, r) && NoRepeats(p.trace) && forall c :: Made(p.trace, c) ==> c.queue != q
    ensures var (synced, go) := SyncStep(p, q, r, support, hw);
            && NoneExcused(synced.trace, r) && (go ==> ReadSoFar(synced.trace, synced.trace, q, 0, r))
  {
    OneReadMakes(p.trace, SyncOf(q, r), support, hw);
    OneReadFails(p.trace, SyncOf(q, r), support, hw);
    OneReadNoRepeat(p.trace, SyncOf(q, r), support, hw);
    NothingFailedAt(p.trace, q, 0, r);
  }

  lemma {:induction false} WalkNotExcused(qs: seq<StatQueue>, r: Request, support: bool, hw: Hardware)
    requires forall i, j :: 0 <= i < j < |qs| ==> qs[i] != qs[j]
    ensures NoneExcused(Walk(qs, r, support, hw).trace, r)
  {
    if qs != [] {
      var front, q := qs[..|qs| - 1], qs[|qs| - 1];
      WalkNotExcused(front, r, support, hw);
      NothingIsCalledTwice(front, r, support, hw);
      assert q !in front;
      var p := Walk(front, r, support, hw);
      SyncNotExcused(p, q, r, support, hw);
      var (synced, go) := SyncStep(p, q, r, support, hw);
      if go {
        ReadBelowNotExcused(synced.trace, q, |q.shadows| + 1, r, support, hw);
      }
    }
  }

  /**
   Whatever the hardware answers, a wildcard read makes a read asked for, of a selected queue on an MMU it
   is present on, exactly when neither the sync of the queue failed nor the plain read that goes before it.
   */
  lemma AskedIsReadExact(qs: seq<StatQueue>, r: Request, support: bool, hw: Hardware, i: nat, call: Call)
    requires forall i, j :: 0 <= i < j < |qs| ==> qs[i] != qs[j]
    requires i < |qs| && Wanted(qs[i], r) && call.queue == qs[i] && call.mmu <= |qs[i].shadows|
             && Asked(r, support, call)
    ensures Made(Walk(qs, r, support, hw).trace, call) <==> !Excused(Walk(qs, r, support, hw).trace, r, call)
  {
    AskedIsReadOrExcused(qs, r, support, hw, i, call);
    WalkNotExcused(qs, r, support, hw);
  }

  // ---- No sync is needless ----

  /** No sync is made when an earlier one, successful, covers its queue's type. */
  ghost predicate SyncsNeeded(trace: seq<Event>) {
    forall i :: 0 <= i < |trace| && trace[i].call.mode.Sync? ==> !SyncDone(trace[..i], trace[i].call.queue.key.kind)
  }

  lemma NeededGrows(trace: seq<Event>, e: Event)
    ensures SyncsNeeded(trace + [e]) <==>
            SyncsNeeded(trace) && (e.call.mode.Sync? ==> !SyncDone(trace, e.call.queue.key.kind))
  {
    var all := trace + [e];
    assert all[|trace|] == e && all[..|trace|] == trace;
    forall i | 0 <= i < |trace| ensures all[i] == trace[i] && all[..i] == trace[..i] {}
  }

  lemma ReadNeeded(trace: seq<Event>, call: Call, support: bool, hw: Hardware)
    requires SyncsNeeded(trace) && !call.mode.Sync?
    ensures SyncsNeeded(OneRead(trace, call, support, hw).0)
  {
    NeededGrows(trace, Event(call, hw(|trace|, call)));
  }

  lemma ReadAtNeeded(trace: seq<Event>, q: StatQueue, index: nat, r: Request, support: bool, hw: Hardware)
    requires SyncsNeeded(trace)
    ensures SyncsNeeded(ReadAt(trace, q, index, r, support, hw))
  {
    if r.snapshot.Some? {
      ReadNeeded(trace, Call(q, index, r.snapshot.value, if r.snapshot.value then ReadAndClear else Read), support, hw);
    } else {
      var plain := Call(q, index, false, Read);
      ReadNeeded(trace, plain, support, hw);
      ReadNeeded(OneRead(trace, plain, support, hw).0, Call(q, index, true, ReadAndClear), support, hw);
    }
  }

  lemma {:induction false} ReadBelowNeeded(trace: seq<Event>, q: StatQueue, n: nat, r: Request, support: bool,
                                           hw: Hardware)
    requires SyncsNeeded(trace)
    ensures SyncsNeeded(ReadBelow(trace, q, n, r, support, hw))
  {
    if n > 0 {
      ReadBelowNeeded(trace, q, n - 1, r, support, hw);
      ReadAtNeeded(ReadBelow(trace, q, n - 1, r, support, hw), q, n - 1, r, support, hw);
    }
  }

  /** A type already covered by a sync is flagged. */
  ghost predicate Flagged(p: Progress) {
    && (SyncDone(p.trace, UCAST) ==> p.flags.ucast) && (SyncDone(p.trace, MULTICAST) ==> p.flags.mcast)
    && (SyncDone(p.trace, ANYCAST) ==> p.flags.ucast || p.flags.mcast)
  }

  lemma SyncStepNeeded(p: Progress, q: StatQueue, r: Request, support: bool, hw: Hardware)
    requires SyncsNeeded(p.trace) && Flagged(p)
    ensures var next := SyncStep(p, q, r, support, hw).0;
            SyncsNeeded(next.trace) && Flagged(next)
  {
    var call := Call(q, Mmu(r), OnlySnapshot(r), Sync);
    var e := Event(call, hw(|p.trace|, call));
    NeededGrows(p.trace, e);
    SyncDoneGrows(p.trace, e, UCAST);
    SyncDoneGrows(p.trace, e, MULTICAST);
    SyncDoneGrows(p.trace, e, ANYCAST);
  }

  /** Whatever the hardware answers, a wildcard read syncs no type of queue that a sync already covers. */
  lemma {:induction false} NoSyncIsNeedless(qs: seq<StatQueue>, r: Request, support: bool, hw: Hardware)
    ensures SyncsNeeded(Walk(qs, r, support, hw).trace) && Flagged(Walk(qs, r, support, hw))
  {
    if qs != [] {
      var front, q := qs[..|qs| - 1], qs[|qs| - 1];
      NoSyncIsNeedless(front, r, support, hw);
      var p := Walk(front, r, support, hw);
      SyncStepNeeded(p, q, r, support, hw);
      var synced := SyncStep(p, q, r, support, hw).0;
      ReadBelowNeeded(synced.trace, q, |q.shadows| + 1, r, support, hw);
      ReadBelowReads(synced.trace, q, |q.shadows| + 1, r, support, hw);
    }
  }

  // ---- A request that names one queue ----

  /** MMU 0 unless another is asked for. */
  function MmuAsked(r: Request): nat { match r.mmu case Some(m) => m case None => 0 }

  /** It is read if it exists on a real port and the MMU asked for; snapshots only with support. */
  predicate Readable(found: Option<StatQueue>, r: Request, support: bool) {
    && found.Some? && !found.value.virtual && On(found.value, MmuAsked(r))
    && (r.snapshot == Some(true) ==> support)
  }

  /**
   All calls are of the named queue on the MMU asked for, 0 by default. Without the snapshot flag there
   is one plain read; with it a sync, then the read that clears, unless the sync fails. A queue that is
   missing, virtual or absent from the MMU causes no call at all.
   */
  lemma NamedQueueIsRead(qs: seq<StatQueue>, found: Option<StatQueue>, r: Request, support: bool, hw: Hardware)
    requires NamesOneQueue(r)
    ensures var trace := ReadStats(qs, found, r, support, hw);
            var snapshot := r.snapshot == Some(true);
            Honest(trace, hw) &&
            if !Readable(found, r, support) then trace == []
            else
              && (forall i :: 0 <= i < |trace| ==>
                    && trace[i].call.queue == found.value && trace[i].call.mmu == MmuAsked(r)
                    && trace[i].call.snapshot == snapshot)
              && if !snapshot then |trace| == 1 && trace[0].call.mode == Read
                 else
                   && 1 <= |trace| <= 2 && trace[0].call.mode == Sync && (|trace| == 2 <==> trace[0].ok)
                   && (|trace| == 2 ==> trace[1].call.mode == ReadAndClear)
  {}

  /** So with accepting hardware the call made last reads the queue, clearing its snapshot counters if asked. */
  lemma NamedQueueIsReadLast(qs: seq<StatQueue>, found: Option<StatQueue>, r: Request, support: bool)
    requires NamesOneQueue(r) && Readable(found, r, support)
    ensures var trace := ReadStats(qs, found, r, support, Accepts());
            var snapshot := r.snapshot == Some(true);
            && trace != []
            && trace[|trace| - 1].call
               == Call(found.value, MmuAsked(r), snapshot, if snapshot then ReadAndClear else Read)
  {
    NamedQueueIsRead(qs, found, r, support, Accepts());
  }
}
