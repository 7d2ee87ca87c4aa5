/** The CPS operations on WRED profiles, and the undo of whole transactions. */
module WredUndo {
  import opened Wrappers
  import opened NasIds
  import opened IdGenerator
  import opened ProfileTables
  import opened WredProfiles

  datatype WredOp =
    | Create(requested: NasId, settings: seq<Setting>)
    | Set(id: NasId, settings: seq<Setting>)
    | Delete(id: NasId)

  /** The generator's choice, and whether the hardware accepts. */
  datatype Outside = Outside(choice: nat, accepts: bool)

  function Apply(t: Table<Wred>, op: WredOp, o: Outside): (Table<Wred>, Outcome) {
    match op
    case Create(requested, settings) =>
      if !Known(settings) then (t, Refused)
      else CreateRow(t, WRED_ID_MAX, requested, o.choice, o.accepts, Parse(NEW_WRED, settings))
    case Set(id, settings) =>
      if id !in t.rows || !Known(settings) then (t, Refused)
      else UpdateRow(t, id, o.accepts, Parse(t.rows[id], settings))
    case Delete(id) => DeleteRow(t, id, o.accepts)
  }

  // ---- The operations on the switch ----

  method WredCreate(store: ProfileStore<Wred>, requested: NasId, settings: seq<Setting>, o: Outside)
    returns (outcome: Outcome)
    requires store.max == WRED_ID_MAX
    modifies store`rows, store`inUse
    ensures (store.State(), outcome) == Apply(old(store.State()), Create(requested, settings), o)
  {
    var wred := ParseAttrs(NEW_WRED, settings);
    if wred.None? {
      return Refused;
    }
    outcome := store.Create(requested, o.choice, o.accepts, wred.value);
  }

  method WredSet(store: ProfileStore<Wred>, id: NasId, settings: seq<Setting>, o: Outside) returns (outcome: Outcome)
    modifies store`rows
    ensures (store.State(), outcome) == Apply(old(store.State()), Set(id, settings), o)
  {
    if id !in store.rows {
      return Refused;
    }
    var wred := ParseAttrs(store.rows[id], settings);
    if wred.None? || !o.accepts {
      return Refused;
    }
    store.rows := store.rows[id := wred.value];
    outcome := Done(id);
  }

  method WredDelete(store: ProfileStore<Wred>, id: NasId, o: Outside) returns (outcome: Outcome)
    modifies store`rows, store`inUse
    ensures (store.State(), outcome) == Apply(old(store.State()), Delete(id), o)
  {
    outcome := store.Delete(id, o.accepts);
  }

  /** nas_qos_store_prev_attr: the loop over the attribute set, in whatever order it is iterated. */
  method StorePrevAttrs(w: Wred, attrs: set<WredAttr>) returns (saved: seq<Setting>)
    ensures StoredFor(w, attrs, saved)
  {
    saved := [];
    var todo := attrs;
    while todo != {}
      invariant todo <= attrs && StoredFor(w, attrs - todo, saved)
    {
      var a :| a in todo;
      var more := [];
      if a == NpuIdList {
        more := StoreNpus(w.npus);
      } else if CfgValue(w.cfg, a).Some? {
        more := [Setting(a, CfgValue(w.cfg, a).value)];
      }
      StoreMore(w, attrs - todo, saved, a, more);
      assert attrs - todo + {a} == attrs - (todo - {a});
      saved, todo := saved + more, todo - {a};
    }
    assert attrs - todo == attrs;
  }

  method StoreNpus(npus: set<nat>) returns (saved: seq<Setting>)
    ensures forall i :: 0 <= i < |saved| ==> saved[i].attr == NpuIdList && saved[i].value in npus
    ensures forall n :: n in npus ==> exists i :: 0 <= i < |saved| && saved[i] == Setting(NpuIdList, n)
  {
    saved := [];
    var todo := npus;
    while todo != {}
      invariant todo <= npus
      invariant forall i :: 0 <= i < |saved| ==> saved[i].attr == NpuIdList && saved[i].value in npus
      invariant forall n :: n in npus && n !in todo ==>
                  exists i :: 0 <= i < |saved| && saved[i] == Setting(NpuIdList, n)
    {
      var n :| n in todo;
      ghost var before := saved;
      saved := saved + [Setting(NpuIdList, n)];
      assert saved[|before|] == Setting(NpuIdList, n);
      assert forall i :: 0 <= i < |before| ==> saved[i] == before[i];
      todo := todo - {n};
    }
  }

  lemma StoreMore(w: Wred, attrs: set<WredAttr>, saved: seq<Setting>, a: WredAttr, more: seq<Setting>)
    requires StoredFor(w, attrs, saved) && a !in attrs
    requires if a == NpuIdList then
               && (forall i :: 0 <= i < |more| ==> more[i].attr == NpuIdList && more[i].value in w.npus)
               && (forall n :: n in w.npus ==> exists i :: 0 <= i < |more| && more[i] == Setting(NpuIdList, n))
             else more == if CfgValue(w.cfg, a).Some? then [Setting(a, CfgValue(w.cfg, a).value)] else []
    ensures StoredFor(w, attrs + {a}, saved + more)
  {
    var all := saved + more;
    assert forall i :: 0 <= i < |saved| ==> all[i] == saved[i];
    assert forall i :: 0 <= i < |more| ==> all[|saved| + i] == more[i];
    forall b | b in attrs + {a} && CfgValue(w.cfg, b).Some? ensures exists i :: 0 <= i < |all| && all[i].attr == b {
      if b == a {
        assert all[|saved|].attr == a;
      } else {
        var i :| 0 <= i < |saved| && saved[i].attr == b;
        assert all[i].attr == b;
      }
    }
    if NpuIdList in attrs + {a} {
      forall n | n in w.npus ensures exists i :: 0 <= i < |all| && all[i] == Setting(NpuIdList, n) {
        if a == NpuIdList {
          var i :| 0 <= i < |more| && more[i] == Setting(NpuIdList, n);
          assert all[|saved| + i] == Setting(NpuIdList, n);
        } else {
          var i :| 0 <= i < |saved| && saved[i] == Setting(NpuIdList, n);
          assert all[i] == Setting(NpuIdList, n);
        }
      }
    }
  }

  // ---- What is saved, and its undo ----

  datatype Saved =
    | SavedCreate(id: NasId)
    | SavedSet(id: NasId, settings: seq<Setting>)
    | SavedDelete(id: NasId, settings: seq<Setting>)

  /**
   The object saved by a successful operation: a CREATE saves its request with the new id; a SET the
   earlier values of at least the attributes it changed; a DELETE those of all attributes ever set.
   */
  ghost predicate SavedBy(t: Table<Wred>, op: WredOp, outcome: Outcome, s: Saved)
    requires outcome.Done? && (!op.Create? ==> op.id in t.rows)
  {
    match op
    case Create(_, _) => s == SavedCreate(outcome.id)
    case Set(id, settings) =>
      && s.SavedSet? && s.id == id
      && exists modified ::
           && Dirty(settings) <= modified <= Parse(t.rows[id], settings).setAttrs
           && StoredFor(t.rows[id], modified, s.settings)
    case Delete(id) => s.SavedDelete? && s.id == id && StoredFor(t.rows[id], t.rows[id].setAttrs, s.settings)
  }

  /** nas_qos_cps_api_wred_rollback, with the hardware accepting. */
  function Undo(t: Table<Wred>, s: Saved): Table<Wred> {
    var o := Outside(0, true);
    match s
    case SavedCreate(id) => Apply(t, Delete(id), o).0
    case SavedSet(id, settings) => Apply(t, Set(id, settings), o).0
    case SavedDelete(id, settings) => Apply(t, Create(id, settings), o).0
  }

  /** Attributes never set are still zero, and the alias is never recorded. */
  ghost predicate RowOk(w: Wred) {
    && EcnEnable !in w.setAttrs
    && (forall a :: Canonical(a) && a !in w.setAttrs ==> CfgValue(w.cfg, a) == Some(0))
    && (w.npus != {} ==> NpuIdList in w.setAttrs)
  }

  ghost predicate Good(t: Table<Wred>) {
    InStep(t, WRED_ID_MAX) && forall id :: id in t.rows ==> RowOk(t.rows[id])
  }

  lemma ParseKeepsRowOk(w: Wred, settings: seq<Setting>)
    requires RowOk(w)
    ensures RowOk(Parse(w, settings))
  {
    ParseCollects(w, settings);
    forall a | Canonical(a) && a !in Parse(w, settings).setAttrs
      ensures CfgValue(Parse(w, settings).cfg, a) == Some(0) {
      ParseLeavesOthers(w, settings, a);
    }
    if Parse(w, settings).npus != {} && w.npus == {} {
      var i :| 0 <= i < |settings| && settings[i].attr == NpuIdList;
      assert Recorded(settings[i].attr) in Dirty(settings);
    }
  }

  lemma ApplyKeepsGood(t: Table<Wred>, op: WredOp, o: Outside)
    requires Good(t)
    ensures Good(Apply(t, op, o).0) && Apply(t, op, o).1 != Duplicate
    ensures !Apply(t, op, o).1.Done? ==> Apply(t, op, o).0 == t
  {
    match op {
      case Create(_, settings) => ParseKeepsRowOk(NEW_WRED, settings);
      case Set(id, settings) =>
        if id in t.rows {
          ParseKeepsRowOk(t.rows[id], settings);
        }
      case Delete(_) =>
    }
  }

  /** The same ids in use, the same profiles, each with the same configuration and NPUs. */
  ghost predicate SameProfiles(t: Table<Wred>, u: Table<Wred>) {
    && u.inUse == t.inUse && u.rows.Keys == t.rows.Keys
    && forall id :: id in t.rows ==> u.rows[id].cfg == t.rows[id].cfg && u.rows[id].npus == t.rows[id].npus
  }

  /**
   Undoing a SET restores every configuration field, the ECN mark mode behind the deprecated alias
   included; the table is fully restored exactly when the request added no NPU, since nothing ever
   takes one out.
   */
  lemma UndoSet(t: Table<Wred>, id: NasId, settings: seq<Setting>, o: Outside, s: Saved, u: Table<Wred>)
    requires Good(t) && Apply(t, Set(id, settings), o).1 == Done(id)
    requires SavedBy(t, Set(id, settings), Done(id), s) && SameProfiles(Apply(t, Set(id, settings), o).0, u)
    ensures id in Undo(u, s).rows && Undo(u, s).rows[id].cfg == t.rows[id].cfg
    ensures SameProfiles(t, Undo(u, s)) <==> Npus(settings) <= t.rows[id].npus
  {
    var prior, w := t.rows[id], u.rows[id];
    UndoSetRow(prior, settings, w, s.settings);
    assert Undo(u, s).rows == u.rows[id := Parse(w, s.settings)];
    assert Undo(u, s).rows.Keys == t.rows.Keys;
    assert forall i :: i in t.rows && i != id ==> Undo(u, s).rows[i] == u.rows[i];
  }

  /** The same for the one row: what was saved of `prior` is replayed on the row the SET left. */
  lemma UndoSetRow(prior: Wred, settings: seq<Setting>, w: Wred, saved: seq<Setting>)
    requires RowOk(prior) && w.cfg == Parse(prior, settings).cfg && w.npus == Parse(prior, settings).npus
    requires exists modified ::
               Dirty(settings) <= modified <= Parse(prior, settings).setAttrs && StoredFor(prior, modified, saved)
    ensures Known(saved) && Parse(w, saved).cfg == prior.cfg
    ensures Parse(w, saved).npus == prior.npus <==> Npus(settings) <= prior.npus
  {
    var modified :| Dirty(settings) <= modified <= Parse(prior, settings).setAttrs && StoredFor(prior, modified, saved);
    ParseKeepsRowOk(prior, settings);
    ParseCollects(prior, settings);
    forall a | Canonical(a) && a !in modified ensures CfgValue(w.cfg, a) == CfgValue(prior.cfg, a) {
      ParseLeavesOthers(prior, settings, a);
    }
    ReplayRestores(w, prior, modified, saved);
  }

  lemma UndoDelete(t: Table<Wred>, id: NasId, o: Outside, s: Saved, u: Table<Wred>)
    requires Good(t) && Apply(t, Delete(id), o).1 == Done(id)
    requires SavedBy(t, Delete(id), Done(id), s) && SameProfiles(Apply(t, Delete(id), o).0, u)
    ensures SameProfiles(t, Undo(u, s))
  {
    ReplayRestores(NEW_WRED, t.rows[id], t.rows[id].setAttrs, s.settings);
    assert id !in u.inUse && 0 < id <= WRED_ID_MAX;
    assert u.inUse + {id} == t.inUse;
  }

  lemma UndoCreate(t: Table<Wred>, requested: NasId, settings: seq<Setting>, o: Outside, s: Saved, u: Table<Wred>)
    requires Good(t) && Apply(t, Create(requested, settings), o).1.Done?
    requires s == SavedCreate(Apply(t, Create(requested, settings), o).1.id)
    requires SameProfiles(Apply(t, Create(requested, settings), o).0, u)
    ensures SameProfiles(t, Undo(u, s))
  {}

  // ---- Whole transactions ----

  datatype Event = Event(op: WredOp, o: Outside, saved: Saved)

  /** Every request succeeds, saves what the code saves, and adds no NPU to an existing profile. */
  ghost predicate Transaction(t: Table<Wred>, events: seq<Event>)
    decreases |events|
  {
    events == [] ||
    (var e := events[0];
     var (next, outcome) := Apply(t, e.op, e.o);
     && outcome.Done? && SavedBy(t, e.op, outcome, e.saved)
     && (e.op.Set? ==> Npus(e.op.settings) <= t.rows[e.op.id].npus)
     && Transaction(next, events[1..]))
  }

  function RunEvents(t: Table<Wred>, events: seq<Event>): Table<Wred>
    decreases |events|
  {
    if events == [] then t else RunEvents(Apply(t, events[0].op, events[0].o).0, events[1..])
  }

  /** The saved objects rolled back, the last one first. */
  function UndoAll(t: Table<Wred>, events: seq<Event>): Table<Wred>
    decreases |events|
  {
    if events == [] then t else Undo(UndoAll(t, events[1..]), events[0].saved)
  }

  lemma UndoOne(t: Table<Wred>, e: Event, u: Table<Wred>)
    requires Good(t) && Apply(t, e.op, e.o).1.Done? && SavedBy(t, e.op, Apply(t, e.op, e.o).1, e.saved)
    requires e.op.Set? ==> Npus(e.op.settings) <= t.rows[e.op.id].npus
    requires SameProfiles(Apply(t, e.op, e.o).0, u)
    ensures SameProfiles(t, Undo(u, e.saved))
  {
    match e.op {
      case Create(requested, settings) => UndoCreate(t, requested, settings, e.o, e.saved, u);
      case Set(id, settings) => UndoSet(t, id, settings, e.o, e.saved, u);
      case Delete(id) => UndoDelete(t, id, e.o, e.saved, u);
    }
  }

  lemma {:induction false} UndoAllFrom(t: Table<Wred>, events: seq<Event>, u: Table<Wred>)
    requires Good(t) && Transaction(t, events) && SameProfiles(RunEvents(t, events), u)
    ensures SameProfiles(t, UndoAll(u, events))
    decreases |events|
  {
    if events != [] {
      var e := events[0];
      ApplyKeepsGood(t, e.op, e.o);
      UndoAllFrom(Apply(t, e.op, e.o).0, events[1..], u);
      UndoOne(t, e, UndoAll(u, events[1..]));
    }
  }

  /**
   For any sequence of successful requests that add no NPU to an existing profile, rolling the saved
   objects back in reverse order restores the profiles and the ids in use.
   */
  lemma TransactionUndone(t: Table<Wred>, events: seq<Event>)
    requires Good(t) && Transaction(t, events)
    ensures SameProfiles(t, UndoAll(RunEvents(t, events), events))
  {
    UndoAllFrom(t, events, RunEvents(t, events));
  }

  /** The saved state of a failed request is the state before it, so a transaction is all or nothing. */
  lemma FailedTransactionLeavesNoTrace(t: Table<Wred>, events: seq<Event>, op: WredOp, o: Outside)
    requires Good(t) && Transaction(t, events) && !Apply(RunEvents(t, events), op, o).1.Done?
    ensures SameProfiles(t, UndoAll(Apply(RunEvents(t, events), op, o).0, events))
  {
    RunKeepsGood(t, events);
    ApplyKeepsGood(RunEvents(t, events), op, o);
    TransactionUndone(t, events);
  }

  lemma {:induction false} RunKeepsGood(t: Table<Wred>, events: seq<Event>)
    requires Good(t)
    ensures Good(RunEvents(t, events))
    decreases |events|
  {
    if events != [] {
      ApplyKeepsGood(t, events[0].op, events[0].o);
      RunKeepsGood(Apply(t, events[0].op, events[0].o).0, events[1..]);
    }
  }
}
