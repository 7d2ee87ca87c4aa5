/** What an accepted scheduler-profile request leaves in the table, field by field, and when one is refused. */
module SchedulerEffects {
  import opened Wrappers
  import opened NasIds
  import opened ProfileTables
  import opened SchedulerProfiles

  /** The last value requested for an attribute, or what was there. */
  function Last(settings: seq<Setting>, a: Attr, was: nat): nat {
    if settings == [] then was
    else if settings[|settings| - 1].attr == a then settings[|settings| - 1].value
    else Last(settings[..|settings| - 1], a, was)
  }

  /** The last weight requested; strict priority, which is algorithm 1, asks for weight 0. */
  function LastWeight(settings: seq<Setting>, was: nat): nat {
    if settings == [] then was
    else
      var s := settings[|settings| - 1];
      if s.attr == Weight then s.value
      else if s == Setting(Algorithm, 1) then 0
      else LastWeight(settings[..|settings| - 1], was)
  }

  /** Each field holds the last value requested for its attribute, or what it held before. */
  ghost predicate RowAfter(settings: seq<Setting>, was: Scheduler, now: Scheduler) {
    && now.algorithm == Last(settings, Algorithm, was.algorithm) && now.weight == LastWeight(settings, was.weight)
    && now.meterType == Last(settings, MeterType, was.meterType)
    && now.minRate == Last(settings, MinRate, was.minRate) && now.minBurst == Last(settings, MinBurst, was.minBurst)
    && now.maxRate == Last(settings, MaxRate, was.maxRate) && now.maxBurst == Last(settings, MaxBurst, was.maxBurst)
  }

  lemma LastStep(front: seq<Setting>, last: Setting, a: Attr, was: nat)
    ensures Last(front + [last], a, was) == if last.attr == a then last.value else Last(front, a, was)
  {
    assert (front + [last])[..|front|] == front;
  }

  lemma WeightStep(front: seq<Setting>, last: Setting, was: nat)
    ensures LastWeight(front + [last], was) ==
            if last.attr == Weight then last.value
            else if last == Setting(Algorithm, 1) then 0 else LastWeight(front, was)
  {
    assert (front + [last])[..|front|] == front;
  }

  lemma {:induction false} ParseTakesLast(p: Scheduler, settings: seq<Setting>)
    requires !NamesUnknown(settings)
    ensures RowAfter(settings, p, Parse(p, settings))
  {
    if settings != [] {
      var front, last := settings[..|settings| - 1], settings[|settings| - 1];
      assert settings == front + [last];
      assert forall i :: 0 <= i < |front| ==> front[i] == settings[i];
      assert !settings[|settings| - 1].attr.Unknown?;
      ParseTakesLast(p, front);
      LastStep(front, last, Algorithm, p.algorithm);
      LastStep(front, last, MeterType, p.meterType);
      LastStep(front, last, MinRate, p.minRate);
      LastStep(front, last, MinBurst, p.minBurst);
      LastStep(front, last, MaxRate, p.maxRate);
      LastStep(front, last, MaxBurst, p.maxBurst);
      WeightStep(front, last, p.weight);
    }
  }

  /** The request names an attribute the parser does not know. */
  predicate NamesUnknown(settings: seq<Setting>) {
    exists i :: 0 <= i < |settings| && settings[i].attr.Unknown?
  }

  /** No row but the named one differs. */
  ghost predicate OthersStay(t: Table<Scheduler>, u: Table<Scheduler>, id: NasId) {
    forall i :: i != id ==> (i in u.rows <==> i in t.rows) && (i in t.rows ==> u.rows[i] == t.rows[i])
  }

  /**
   A SET is refused, changing nothing, for an unknown profile or attribute or when the hardware
   refuses. Else each field is the last value requested for it, or stays, but for the weight, which
   strict priority resets; and nothing else changes.
   */
  lemma SetTakesEffect(t: Table<Scheduler>, id: NasId, settings: seq<Setting>, o: Outside)
    ensures var (u, outcome) := Apply(t, Set(id, settings), o);
            if id !in t.rows || NamesUnknown(settings) || !o.accepts then u == t && outcome == Refused
            else
              && outcome == Done(id) && u.inUse == t.inUse && OthersStay(t, u, id) && id in u.rows
              && RowAfter(settings, t.rows[id], u.rows[id])
  {
    if id in t.rows && !NamesUnknown(settings) {
      ParseTakesLast(t.rows[id], settings);
    }
  }

  const NOTHING_SET: Scheduler := Scheduler(0, 0, 0, 0, 0, 0, 0, {})

  /** The id a create can take: the one it names, or else the generator's choice. */
  function IdToTake(requested: NasId, choice: nat): NasId { if requested == 0 then choice else requested }

  predicate Takeable(inUse: set<NasId>, id: NasId) { 0 < id <= 4000 && id !in inUse }

  /**
   A CREATE is refused, changing nothing, for an unknown attribute, without a free id up to 4000, or
   when the hardware refuses. Else it adds one profile under that id, with each field the last value
   requested for it, or zero.
   */
  lemma CreateTakesEffect(t: Table<Scheduler>, requested: NasId, settings: seq<Setting>, o: Outside)
    requires InStep(t, SCHEDULER_ID_MAX)
    ensures var (u, outcome) := Apply(t, Create(requested, settings), o);
            var id := IdToTake(requested, o.choice);
            if NamesUnknown(settings) || !Takeable(t.inUse, id) || !o.accepts then u == t && outcome == Refused
            else
              && outcome == Done(id) && u.inUse == t.inUse + {id} && id !in t.rows && id in u.rows
              && OthersStay(t, u, id) && RowAfter(settings, NOTHING_SET, u.rows[id])
  {
    if !NamesUnknown(settings) {
      ParseTakesLast(NEW_SCHEDULER, settings);
    }
  }

  /** A DELETE takes exactly the named profile and its id away; or nothing, for an unknown one or a refusal. */
  lemma DeleteTakesEffect(t: Table<Scheduler>, id: NasId, o: Outside)
    ensures var (u, outcome) := Apply(t, Delete(id), o);
            if id !in t.rows || !o.accepts then u == t && outcome == Refused
            else outcome == Done(id) && u.inUse == t.inUse - {id} && id !in u.rows && OthersStay(t, u, id)
  {}
}
