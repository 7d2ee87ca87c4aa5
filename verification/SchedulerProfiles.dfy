/**
 Scheduler profiles: choosing strict priority resets the weight, so replaying saved attributes need
 not give the weight back. Everything else is restored.
 */
module SchedulerProfiles {
  import opened Wrappers
  import opened NasIds
  import opened IdGenerator
  import opened ProfileTables

  const SCHEDULER_ID_MAX: nat := 4000
  const SP: nat := 1    // BASE_QOS_SCHEDULING_TYPE_SP

  datatype Attr =
    | Algorithm
    | Weight
    | MeterType
    | MinRate
    | MinBurst
    | MaxRate
    | MaxBurst
    | Unknown(id: nat)

  datatype Setting = Setting(attr: Attr, value: nat)

  datatype Scheduler = Scheduler(algorithm: nat, weight: nat, meterType: nat,
                                 minRate: nat, minBurst: nat, maxRate: nat, maxBurst: nat, setAttrs: set<Attr>)

  const NEW_SCHEDULER: Scheduler := Scheduler(0, 0, 0, 0, 0, 0, 0, {})

  function ValueOf(p: Scheduler, a: Attr): nat {
    match a
    case Algorithm => p.algorithm
    case Weight => p.weight
    case MeterType => p.meterType
    case MinRate => p.minRate
    case MinBurst => p.minBurst
    case MaxRate => p.maxRate
    case MaxBurst => p.maxBurst
    case Unknown(_) => 0
  }

  /** The setters; each also records its attribute. */
  function SetAttr(p: Scheduler, s: Setting): Scheduler {
    var q := p.(setAttrs := p.setAttrs + {s.attr});
    match s.attr
    case Algorithm => q.(algorithm := s.value, weight := if s.value == SP then 0 else p.weight)
    case Weight => q.(weight := s.value)
    case MeterType => q.(meterType := s.value)
    case MinRate => q.(minRate := s.value)
    case MinBurst => q.(minBurst := s.value)
    case MaxRate => q.(maxRate := s.value)
    case MaxBurst => q.(maxBurst := s.value)
    case Unknown(_) => p
  }

  predicate Known(settings: seq<Setting>) {
    forall i :: 0 <= i < |settings| ==> !settings[i].attr.Unknown?
  }

  function Parse(p: Scheduler, settings: seq<Setting>): Scheduler {
    if settings == [] then p
    else SetAttr(Parse(p, settings[..|settings| - 1]), settings[|settings| - 1])
  }

  /** nas_qos_cps_parse_attr: the loop over the request, on the local copy. */
  method ParseAttrs(p: Scheduler, settings: seq<Setting>) returns (r: Option<Scheduler>)
    ensures r.Some? <==> Known(settings)
    ensures r.Some? ==> r.value == Parse(p, settings)
  {
    var copy := p;
    var i := 0;
    while i < |settings|
      invariant 0 <= i <= |settings|
      invariant copy == Parse(p, settings[..i]) && Known(settings[..i])
    {
      assert settings[..i + 1][..i] == settings[..i];
      if settings[i].attr.Unknown? {
        return None;
      }
      copy := SetAttr(copy, settings[i]);
      i := i + 1;
    }
    assert settings[..i] == settings;
    r := Some(copy);
  }

  ghost function Attrs(settings: seq<Setting>): set<Attr> {
    set i | 0 <= i < |settings| :: settings[i].attr
  }

  /** nas_qos_store_prev_attr: each attribute once, in whatever order the set is iterated. */
  ghost predicate StoredFor(p: Scheduler, attrs: set<Attr>, saved: seq<Setting>) {
    && Attrs(saved) == attrs
    && (forall i :: 0 <= i < |saved| ==> !saved[i].attr.Unknown? && saved[i].value == ValueOf(p, saved[i].attr))
  }

  method StorePrevAttrs(p: Scheduler, attrs: set<Attr>) returns (saved: seq<Setting>)
    requires forall a :: a in attrs ==> !a.Unknown?
    ensures StoredFor(p, attrs, saved)
  {
    saved := [];
    var todo := attrs;
    while todo != {}
      invariant todo <= attrs && StoredFor(p, attrs - todo, saved)
    {
      var a :| a in todo;
      AttrsAppend(saved, Setting(a, ValueOf(p, a)));
      assert attrs - (todo - {a}) == attrs - todo + {a};
      saved, todo := saved + [Setting(a, ValueOf(p, a))], todo - {a};
    }
    assert attrs - todo == attrs;
  }

  lemma AttrsAppend(front: seq<Setting>, last: Setting)
    ensures Attrs(front + [last]) == Attrs(front) + {last.attr}
  {
    var all := front + [last];
    assert all[|front|] == last;
    assert forall i :: 0 <= i < |front| ==> all[i] == front[i];
  }

  // ---- What parsing changes ----

  /** Strict priority is set, and no weight after it. */
  ghost predicate ZeroesWeight(settings: seq<Setting>) {
    exists j :: 0 <= j < |settings| && settings[j] == Setting(Algorithm, SP)
                && forall k :: j < k < |settings| ==> settings[k].attr != Weight
  }

  lemma {:induction false} ParseCollects(p: Scheduler, settings: seq<Setting>)
    requires Known(settings)
    ensures Parse(p, settings).setAttrs == p.setAttrs + Attrs(settings)
  {
    if settings != [] {
      var front, last := settings[..|settings| - 1], settings[|settings| - 1];
      ParseCollects(p, front);
      AttrsAppend(front, last);
      assert front + [last] == settings;
    }
  }

  /**
   A request that names attribute a only with value v leaves it at v; one that does not leaves it.
   Not so the weight.
   */
  lemma {:induction false} ParseSets(p: Scheduler, settings: seq<Setting>, a: Attr, v: nat)
    requires a != Weight && !a.Unknown? && Known(settings)
    requires forall i :: 0 <= i < |settings| && settings[i].attr == a ==> settings[i].value == v
    ensures ValueOf(Parse(p, settings), a) == if a in Attrs(settings) then v else ValueOf(p, a)
  {
    if settings != [] {
      var front, last := settings[..|settings| - 1], settings[|settings| - 1];
      ParseSets(p, front, a, v);
      AttrsAppend(front, last);
      assert front + [last] == settings;
    }
  }

  /** The weight after a request that names it only with value v. */
  lemma {:induction false} ParseSetsWeight(p: Scheduler, settings: seq<Setting>, v: nat)
    requires Known(settings)
    requires forall i :: 0 <= i < |settings| && settings[i].attr == Weight ==> settings[i].value == v
    ensures Parse(p, settings).weight ==
            if ZeroesWeight(settings) then 0 else if Weight in Attrs(settings) then v else p.weight
  {
    if settings != [] {
      var front, last := settings[..|settings| - 1], settings[|settings| - 1];
      ParseSetsWeight(p, front, v);
      AttrsAppend(front, last);
      assert front + [last] == settings;
      ZeroesWeightAppend(front, last);
    }
  }

  lemma ZeroesWeightAppend(front: seq<Setting>, last: Setting)
    ensures ZeroesWeight(front + [last]) <==>
              last == Setting(Algorithm, SP) || (last.attr != Weight && ZeroesWeight(front))
  {
    var all := front + [last];
    assert forall i :: 0 <= i < |front| ==> all[i] == front[i];
    if last == Setting(Algorithm, SP) {
      assert all[|front|] == last;
    } else if last.attr != Weight && ZeroesWeight(front) {
      var j :| 0 <= j < |front| && front[j] == Setting(Algorithm, SP)
               && forall k :: j < k < |front| ==> front[k].attr != Weight;
      assert all[j] == Setting(Algorithm, SP);
    }
    if ZeroesWeight(all) && last != Setting(Algorithm, SP) {
      var j :| 0 <= j < |all| && all[j] == Setting(Algorithm, SP)
               && forall k :: j < k < |all| ==> all[k].attr != Weight;
      assert front[j] == Setting(Algorithm, SP);
      assert all[|front|].attr != Weight;
    }
  }

  // ---- The operations ----

  datatype SchedOp =
    | Create(requested: NasId, settings: seq<Setting>)
    | Set(id: NasId, settings: seq<Setting>)
    | Delete(id: NasId)

  /** The generator's choice, and whether the hardware accepts. */
  datatype Outside = Outside(choice: nat, accepts: bool)

  function Apply(t: Table<Scheduler>, op: SchedOp, o: Outside): (Table<Scheduler>, Outcome) {
    match op
    case Create(requested, settings) =>
      if !Known(settings) then (t, Refused)
      else CreateRow(t, SCHEDULER_ID_MAX, requested, o.choice, o.accepts, Parse(NEW_SCHEDULER, settings))
    case Set(id, settings) =>
      if id !in t.rows || !Known(settings) then (t, Refused)
      else UpdateRow(t, id, o.accepts, Parse(t.rows[id], settings))
    case Delete(id) => DeleteRow(t, id, o.accepts)
  }

  method SchedulerCreate(store: ProfileStore<Scheduler>, requested: NasId, settings: seq<Setting>,
                         o: Outside) returns (outcome: Outcome)
    requires store.max == SCHEDULER_ID_MAX
    modifies store`rows, store`inUse
    ensures (store.State(), outcome) == Apply(old(store.State()), Create(requested, settings), o)
  {
    var row := ParseAttrs(NEW_SCHEDULER, settings);
    if row.None? {
      return Refused;
    }
    outcome := store.Create(requested, o.choice, o.accepts, row.value);
  }

  method SchedulerSet(store: ProfileStore<Scheduler>, id: NasId, settings: seq<Setting>, o: Outside)
    returns (outcome: Outcome)
    modifies store`rows
    ensures (store.State(), outcome) == Apply(old(store.State()), Set(id, settings), o)
  {
    if id !in store.rows {
      return Refused;
    }
    var row := ParseAttrs(store.rows[id], settings);
    if row.None? || !o.accepts {
      return Refused;
    }
    store.rows := store.rows[id := row.value];
    outcome := Done(id);
  }

  method SchedulerDelete(store: ProfileStore<Scheduler>, id: NasId, o: Outside) returns (outcome: Outcome)
    modifies store`rows, store`inUse
    ensures (store.State(), outcome) == Apply(old(store.State()), Delete(id), o)
  {
    outcome := store.Delete(id, o.accepts);
  }

  // ---- Undo ----

  datatype Saved =
    | SavedCreate(id: NasId)
    | SavedSet(id: NasId, settings: seq<Setting>)
    | SavedDelete(id: NasId, settings: seq<Setting>)

  /** A SET saves the earlier values of at least what it changed, at most what was ever set. */
  ghost predicate SavedBySet(prior: Scheduler, request: seq<Setting>, saved: seq<Setting>) {
    exists modified ::
      Attrs(request) <= modified <= prior.setAttrs + Attrs(request) && StoredFor(prior, modified, saved)
  }

  ghost predicate SavedBy(t: Table<Scheduler>, op: SchedOp, outcome: Outcome, s: Saved)
    requires outcome.Done? && (!op.Create? ==> op.id in t.rows)
  {
    match op
    case Create(_, _) => s == SavedCreate(outcome.id)
    case Set(id, settings) => s.SavedSet? && s.id == id && SavedBySet(t.rows[id], settings, s.settings)
    case Delete(id) => s.SavedDelete? && s.id == id && StoredFor(t.rows[id], t.rows[id].setAttrs, s.settings)
  }

  /** nas_qos_cps_api_scheduler_rollback, with the hardware accepting. */
  function Undo(t: Table<Scheduler>, s: Saved): Table<Scheduler> {
    var o := Outside(0, true);
    match s
    case SavedCreate(id) => Apply(t, Delete(id), o).0
    case SavedSet(id, settings) => Apply(t, Set(id, settings), o).0
    case SavedDelete(id, settings) => Apply(t, Create(id, settings), o).0
  }

  /** Attributes never set are still zero. */
  ghost predicate RowOk(p: Scheduler) {
    && (forall a :: a in p.setAttrs ==> !a.Unknown?)
    && (forall a: Attr :: a !in p.setAttrs ==> ValueOf(p, a) == 0)
  }

  /** Equal in every configuration field; the weight is compared only if `weights`. */
  predicate Agree(p: Scheduler, q: Scheduler, weights: bool) {
    && p.algorithm == q.algorithm && p.meterType == q.meterType
    && p.minRate == q.minRate && p.minBurst == q.minBurst
    && p.maxRate == q.maxRate && p.maxBurst == q.maxBurst
    && (weights ==> p.weight == q.weight)
  }

  lemma AgreeByAttr(p: Scheduler, q: Scheduler, weights: bool)
    requires forall a: Attr :: !a.Unknown? && a != Weight ==> ValueOf(p, a) == ValueOf(q, a)
    requires weights ==> p.weight == q.weight
    ensures Agree(p, q, weights)
  {
    assert ValueOf(p, Algorithm) == ValueOf(q, Algorithm) && ValueOf(p, MeterType) == ValueOf(q, MeterType);
    assert ValueOf(p, MinRate) == ValueOf(q, MinRate) && ValueOf(p, MinBurst) == ValueOf(q, MinBurst);
    assert ValueOf(p, MaxRate) == ValueOf(q, MaxRate) && ValueOf(p, MaxBurst) == ValueOf(q, MaxBurst);
  }

  /**
   Rolling back a SET restores every field but the weight, whatever was requested. For one saved
   object, the weight comes back exactly when it was 0, or neither of two things happened: the replay
   sets strict priority after the weight, or the weight was not saved and the request set it to 0.
   */
  lemma SetUndone(prior: Scheduler, request: seq<Setting>, saved: seq<Setting>)
    requires Known(request) && SavedBySet(prior, request, saved)
    ensures Known(saved)
    ensures Agree(prior, Parse(Parse(prior, request), saved), false)
    ensures Parse(Parse(prior, request), saved).weight == prior.weight <==>
            prior.weight == 0 || !(ZeroesWeight(saved) || (Weight !in Attrs(saved) && ZeroesWeight(request)))
  {
    var after := Parse(prior, request);
    forall a: Attr | !a.Unknown? && a != Weight ensures ValueOf(prior, a) == ValueOf(Parse(after, saved), a) {
      ParseSets(after, saved, a, ValueOf(prior, a));
      if a !in Attrs(saved) {
        NotNamed(request, a);
        ParseSets(prior, request, a, 0);
      }
    }
    AgreeByAttr(prior, Parse(after, saved), false);
    ParseSetsWeight(after, saved, ValueOf(prior, Weight));
    if Weight !in Attrs(saved) {
      NotNamed(request, Weight);
      ParseSetsWeight(prior, request, 0);
    }
  }

  lemma NotNamed(settings: seq<Setting>, a: Attr)
    requires a !in Attrs(settings)
    ensures forall i :: 0 <= i < |settings| ==> settings[i].attr != a
  {}

  predicate SetsSp(settings: seq<Setting>) {
    exists i :: 0 <= i < |settings| && settings[i] == Setting(Algorithm, SP)
  }

  /** So all of it is restored when neither the request nor the earlier algorithm is strict priority. */
  lemma SetUndoneWithoutSp(prior: Scheduler, request: seq<Setting>, saved: seq<Setting>)
    requires Known(request) && SavedBySet(prior, request, saved)
    requires prior.algorithm != SP && !SetsSp(request)
    ensures Agree(prior, Parse(Parse(prior, request), saved), true)
  {
    SetUndone(prior, request, saved);
    assert forall j :: 0 <= j < |saved| && saved[j].attr == Algorithm ==> saved[j].value != SP;
  }

  /** Settings that save these attributes, in some order. */
  lemma {:induction false} SomeOrder(p: Scheduler, attrs: set<Attr>) returns (saved: seq<Setting>)
    requires forall a :: a in attrs ==> !a.Unknown?
    ensures StoredFor(p, attrs, saved)
  {
    saved := [];
    if attrs != {} {
      var a :| a in attrs;
      var front := SomeOrder(p, attrs - {a});
      AttrsAppend(front, Setting(a, ValueOf(p, a)));
      saved := front + [Setting(a, ValueOf(p, a))];
    }
  }

  lemma NothingUnknown(settings: seq<Setting>)
    requires Known(settings)
    ensures forall a :: a in Attrs(settings) ==> !a.Unknown?
  {}

  /** With strict priority before, saving the algorithm last loses the weight. */
  lemma PriorSpLosesWeight(prior: Scheduler, request: seq<Setting>) returns (saved: seq<Setting>)
    requires RowOk(prior) && Known(request) && prior.algorithm == SP
    ensures SavedBySet(prior, request, saved) && Parse(Parse(prior, request), saved).weight == 0
  {
    var modified := prior.setAttrs + Attrs(request);
    assert ValueOf(prior, Algorithm) != 0;
    NothingUnknown(request);
    var front := SomeOrder(prior, modified - {Algorithm});
    AttrsAppend(front, Setting(Algorithm, SP));
    saved := front + [Setting(Algorithm, SP)];
    assert StoredFor(prior, modified, saved);
    ZeroesWeightAppend(front, Setting(Algorithm, SP));
    ParseSetsWeight(Parse(prior, request), saved, ValueOf(prior, Weight));
  }

  /** Strict priority in a request without a weight loses the weight when only the request's attributes are saved. */
  lemma RequestSpLosesWeight(prior: Scheduler, request: seq<Setting>) returns (saved: seq<Setting>)
    requires RowOk(prior) && Known(request) && prior.algorithm != SP
    requires SetsSp(request) && Weight !in Attrs(request)
    ensures SavedBySet(prior, request, saved) && Parse(Parse(prior, request), saved).weight == 0
  {
    NothingUnknown(request);
    saved := SomeOrder(prior, Attrs(request));
    assert SavedBySet(prior, request, saved);
    NotNamed(request, Weight);
    ParseSetsWeight(prior, request, 0);
    NotNamed(saved, Weight);
    ParseSetsWeight(Parse(prior, request), saved, 0);
  }

  /**
   The weight was 0, or the algorithm was not strict priority and the request does not set strict
   priority without also setting a weight.
   */
  ghost predicate SetKeepsWeight(prior: Scheduler, request: seq<Setting>) {
    prior.weight == 0 || (prior.algorithm != SP && (Weight in Attrs(request) || !SetsSp(request)))
  }

  /**
   Whatever is saved and in whatever order, rolling a SET back restores the weight, exactly under that
   condition on the row and the request.
   */
  lemma WeightRestoredExact(prior: Scheduler, request: seq<Setting>)
    requires RowOk(prior) && Known(request)
    ensures (forall saved: seq<Setting> :: SavedBySet(prior, request, saved) ==>
               Parse(Parse(prior, request), saved).weight == prior.weight) <==> SetKeepsWeight(prior, request)
  {
    if SetKeepsWeight(prior, request) {
      forall saved: seq<Setting> | SavedBySet(prior, request, saved)
        ensures Parse(Parse(prior, request), saved).weight == prior.weight
      {
        SetUndone(prior, request, saved);
        assert forall j :: 0 <= j < |saved| && saved[j].attr == Algorithm ==> saved[j].value == prior.algorithm;
      }
    } else if prior.algorithm == SP {
      var saved := PriorSpLosesWeight(prior, request);
    } else {
      var saved := RequestSpLosesWeight(prior, request);
    }
  }

  /**
   The plain case: a weighted profile set to strict priority. The rollback restores the algorithm
   and leaves the weight at 0.
   */
  lemma WeightIsLost(weight: nat)
    requires weight > 0
    ensures var prior := Scheduler(2, weight, 0, 0, 0, 0, 0, {Algorithm, Weight});
            var request, saved := [Setting(Algorithm, SP)], [Setting(Algorithm, 2)];
            && SavedBySet(prior, request, saved)
            && Parse(Parse(prior, request), saved).algorithm == 2 && Parse(Parse(prior, request), saved).weight == 0
  {
    var prior := Scheduler(2, weight, 0, 0, 0, 0, 0, {Algorithm, Weight});
    var request, saved := [Setting(Algorithm, SP)], [Setting(Algorithm, 2)];
    AttrsAppend([], request[0]);
    AttrsAppend([], saved[0]);
    assert [] + request == request && [] + saved == saved;
    assert StoredFor(prior, {Algorithm}, saved);
    ParseSingle(prior, request[0]);
    ParseSingle(Parse(prior, request), saved[0]);
  }

  lemma ParseSingle(p: Scheduler, s: Setting)
    ensures Parse(p, [s]) == SetAttr(p, s)
  {
    assert [s][..0] == [];
  }

  /** A strict-priority profile with a weight, saved weight first: the rollback leaves the weight at 0. */
  lemma WeightCanBeLost()
    ensures var prior := Scheduler(SP, 30, 0, 0, 0, 0, 0, {Algorithm, Weight});
            var request := [Setting(Weight, 40), Setting(Algorithm, 2)];
            var saved := [Setting(Weight, 30), Setting(Algorithm, SP)];
            && SavedBySet(prior, request, saved)
            && Parse(Parse(prior, request), saved).weight == 0
            && !Agree(prior, Parse(Parse(prior, request), saved), true)
  {
    var prior := Scheduler(SP, 30, 0, 0, 0, 0, 0, {Algorithm, Weight});
    var request := [Setting(Weight, 40), Setting(Algorithm, 2)];
    var saved := [Setting(Weight, 30), Setting(Algorithm, SP)];
    AttrsAppend([request[0]], request[1]);
    AttrsAppend([saved[0]], saved[1]);
    assert [request[0]] + [request[1]] == request && [saved[0]] + [saved[1]] == saved;
    assert Attrs([request[0]]) == {Weight} && Attrs([saved[0]]) == {Weight};
    assert StoredFor(prior, {Weight, Algorithm}, saved);
    var after := Parse(prior, request);
    assert saved[..1] == [saved[0]];
    assert Parse(after, saved) == SetAttr(Parse(after, saved[..1]), saved[1]);
  }

  // ---- Whole transactions ----

  /** The same ids in use and the same profiles, field by field; weights compared only if `weights`. */
  ghost predicate SameProfiles(t: Table<Scheduler>, u: Table<Scheduler>, weights: bool) {
    && u.inUse == t.inUse && u.rows.Keys == t.rows.Keys
    && forall id :: id in t.rows ==> Agree(t.rows[id], u.rows[id], weights)
  }

  ghost predicate Good(t: Table<Scheduler>) {
    InStep(t, SCHEDULER_ID_MAX) && forall id :: id in t.rows ==> RowOk(t.rows[id])
  }

  /** The weights survive the rollback of this operation. */
  ghost predicate KeepsWeights(t: Table<Scheduler>, op: SchedOp) {
    match op
    case Create(_, _) => true
    case Set(id, settings) => id in t.rows ==> SetKeepsWeight(t.rows[id], settings)
    case Delete(id) => id in t.rows ==> t.rows[id].weight == 0 || t.rows[id].algorithm != SP
  }

  lemma {:induction false} ParseKeepsRow(p: Scheduler, settings: seq<Setting>)
    requires RowOk(p) && Known(settings)
    ensures RowOk(Parse(p, settings))
  {
    if settings != [] {
      var front, last := settings[..|settings| - 1], settings[|settings| - 1];
      assert forall i :: 0 <= i < |front| ==> front[i] == settings[i];
      ParseKeepsRow(p, front);
    }
  }

  lemma ApplyKeepsGood(t: Table<Scheduler>, op: SchedOp, o: Outside)
    requires Good(t)
    ensures Good(Apply(t, op, o).0) && Apply(t, op, o).1 != Duplicate
    ensures !Apply(t, op, o).1.Done? ==> Apply(t, op, o).0 == t
  {
    match op {
      case Create(_, settings) =>
        if Known(settings) {
          ParseKeepsRow(NEW_SCHEDULER, settings);
        }
      case Set(id, settings) =>
        if id in t.rows && Known(settings) {
          ParseKeepsRow(t.rows[id], settings);
        }
      case Delete(_) =>
    }
  }

  datatype Event = Event(op: SchedOp, o: Outside, saved: Saved)

  /** Every request succeeds and saves what the code saves. */
  ghost predicate Transaction(t: Table<Scheduler>, events: seq<Event>)
    decreases |events|
  {
    events == [] ||
    (var (next, outcome) := Apply(t, events[0].op, events[0].o);
     && outcome.Done? && SavedBy(t, events[0].op, outcome, events[0].saved)
     && Transaction(next, events[1..]))
  }

  /** Every operation, on the table it meets, lets the weights survive its rollback. */
  ghost predicate AllKeepWeights(t: Table<Scheduler>, events: seq<Event>)
    decreases |events|
  {
    events == []
    || (KeepsWeights(t, events[0].op) && AllKeepWeights(Apply(t, events[0].op, events[0].o).0, events[1..]))
  }

  function RunEvents(t: Table<Scheduler>, events: seq<Event>): Table<Scheduler>
    decreases |events|
  {
    if events == [] then t else RunEvents(Apply(t, events[0].op, events[0].o).0, events[1..])
  }

  /** The saved objects rolled back, the last one first. */
  function UndoAll(t: Table<Scheduler>, events: seq<Event>): Table<Scheduler>
    decreases |events|
  {
    if events == [] then t else Undo(UndoAll(t, events[1..]), events[0].saved)
  }

  /** Replaying the same settings on rows that agree gives rows that agree. */
  lemma {:induction false} ParseAgrees(p: Scheduler, q: Scheduler, settings: seq<Setting>, weights: bool)
    requires Agree(p, q, weights) && Known(settings)
    ensures Agree(Parse(p, settings), Parse(q, settings), weights)
  {
    if settings != [] {
      var front := settings[..|settings| - 1];
      assert forall i :: 0 <= i < |front| ==> front[i] == settings[i];
      ParseAgrees(p, q, front, weights);
    }
  }

  /** A DELETE saves every attribute ever set, so replaying them on a new profile gives the deleted one back. */
  lemma DeleteUndone(prior: Scheduler, saved: seq<Setting>, weights: bool)
    requires RowOk(prior) && StoredFor(prior, prior.setAttrs, saved)
    requires weights ==> prior.weight == 0 || prior.algorithm != SP
    ensures Known(saved) && Agree(prior, Parse(NEW_SCHEDULER, saved), weights)
  {
    forall a: Attr | !a.Unknown? && a != Weight ensures ValueOf(prior, a) == ValueOf(Parse(NEW_SCHEDULER, saved), a) {
      ParseSets(NEW_SCHEDULER, saved, a, ValueOf(prior, a));
    }
    ParseSetsWeight(NEW_SCHEDULER, saved, ValueOf(prior, Weight));
    assert forall j :: 0 <= j < |saved| && saved[j].attr == Algorithm ==> saved[j].value == prior.algorithm;
    AgreeByAttr(prior, Parse(NEW_SCHEDULER, saved), weights);
  }

  lemma UndoOne(t: Table<Scheduler>, e: Event, u: Table<Scheduler>, weights: bool)
    requires Good(t) && Apply(t, e.op, e.o).1.Done? && SavedBy(t, e.op, Apply(t, e.op, e.o).1, e.saved)
    requires SameProfiles(Apply(t, e.op, e.o).0, u, weights)
    requires weights ==> KeepsWeights(t, e.op)
    ensures SameProfiles(t, Undo(u, e.saved), weights)
  {
    match e.op {
      case Create(_, _) =>
        assert u.inUse - {e.saved.id} == t.inUse;
      case Set(id, settings) =>
        var after := Parse(t.rows[id], settings);
        SetUndone(t.rows[id], settings, e.saved.settings);
        if weights {
          WeightRestoredExact(t.rows[id], settings);
        }
        ParseAgrees(after, u.rows[id], e.saved.settings, weights);
      case Delete(id) =>
        DeleteUndone(t.rows[id], e.saved.settings, weights);
        assert id !in u.inUse && 0 < id <= SCHEDULER_ID_MAX;
        assert u.inUse + {id} == t.inUse;
    }
  }

  lemma {:induction false} UndoAllFrom(t: Table<Scheduler>, events: seq<Event>, u: Table<Scheduler>, weights: bool)
    requires Good(t) && Transaction(t, events) && SameProfiles(RunEvents(t, events), u, weights)
    requires weights ==> AllKeepWeights(t, events)
    ensures SameProfiles(t, UndoAll(u, events), weights)
    decreases |events|
  {
    if events != [] {
      var e := events[0];
      ApplyKeepsGood(t, e.op, e.o);
      UndoAllFrom(Apply(t, e.op, e.o).0, events[1..], u, weights);
      UndoOne(t, e, UndoAll(u, events[1..]), weights);
    }
  }

  /**
   Rolling back any sequence of successful requests, the last first, restores the ids in use and
   every field but the weights; the weights too when each operation, on its own, would restore them.
   */
  lemma TransactionUndone(t: Table<Scheduler>, events: seq<Event>)
    requires Good(t) && Transaction(t, events)
    ensures SameProfiles(t, UndoAll(RunEvents(t, events), events), false)
    ensures AllKeepWeights(t, events) ==> SameProfiles(t, UndoAll(RunEvents(t, events), events), true)
  {
    UndoAllFrom(t, events, RunEvents(t, events), false);
    if AllKeepWeights(t, events) {
      UndoAllFrom(t, events, RunEvents(t, events), true);
    }
  }
}
