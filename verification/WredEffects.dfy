/** What an accepted WRED request leaves in the table, field by field, and when one is refused. */
module WredEffects {
  import opened Wrappers
  import opened NasIds
  import opened ProfileTables
  import opened WredProfiles
  import opened WredUndo

  /** The last value requested for an attribute, or what was there. */
  function Last(settings: seq<Setting>, a: WredAttr, was: nat): nat {
    if settings == [] then was
    else if settings[|settings| - 1].attr == a then settings[|settings| - 1].value
    else Last(settings[..|settings| - 1], a, was)
  }

  /** The last mark mode requested; the deprecated flag asks for all, which is 7, or none. */
  function LastMark(settings: seq<Setting>, was: nat): nat {
    if settings == [] then was
    else
      var s := settings[|settings| - 1];
      if s.attr == EcnMark then s.value
      else if s.attr == EcnEnable then (if s.value != 0 then 7 else 0)
      else LastMark(settings[..|settings| - 1], was)
  }

  ghost predicate DropAfter(settings: seq<Setting>, colour: Colour, was: DropCfg, now: DropCfg) {
    && (now.enable <==> Last(settings, Drop(colour, Enable), if was.enable then 1 else 0) != 0)
    && now.min == Last(settings, Drop(colour, Min), was.min)
    && now.max == Last(settings, Drop(colour, Max), was.max)
    && now.probability == Last(settings, Drop(colour, Probability), was.probability)
  }

  ghost predicate EcnAfter(settings: seq<Setting>, curve: Curve, was: EcnCfg, now: EcnCfg) {
    && now.min == Last(settings, Ecn(curve, CurveMin), was.min)
    && now.max == Last(settings, Ecn(curve, CurveMax), was.max)
    && now.probability == Last(settings, Ecn(curve, CurveProbability), was.probability)
  }

  /** Each field holds the last value requested for its attribute, or what it held before. */
  ghost predicate CfgAfter(settings: seq<Setting>, was: WredCfg, now: WredCfg) {
    && DropAfter(settings, Green, was.green, now.green) && DropAfter(settings, Yellow, was.yellow, now.yellow)
    && DropAfter(settings, Red, was.red, now.red)
    && EcnAfter(settings, EcnGreen, was.ecnGreen, now.ecnGreen)
    && EcnAfter(settings, EcnYellow, was.ecnYellow, now.ecnYellow)
    && EcnAfter(settings, EcnRed, was.ecnRed, now.ecnRed)
    && EcnAfter(settings, EcnUnaware, was.ecnUnaware, now.ecnUnaware)
    && now.weight == Last(settings, Weight, was.weight) && now.ecnMark == LastMark(settings, was.ecnMark)
  }

  /** The NPUs requested join those there were. */
  ghost predicate NpusAfter(settings: seq<Setting>, was: set<nat>, now: set<nat>) {
    forall n :: n in now <==> n in was || exists i :: 0 <= i < |settings| && settings[i] == Setting(NpuIdList, n)
  }

  lemma LastStep(front: seq<Setting>, last: Setting, a: WredAttr, was: nat)
    ensures Last(front + [last], a, was) == if last.attr == a then last.value else Last(front, a, was)
  {
    assert (front + [last])[..|front|] == front;
  }

  lemma MarkStep(front: seq<Setting>, last: Setting, was: nat)
    ensures LastMark(front + [last], was) ==
            if last.attr == EcnMark then last.value
            else if last.attr == EcnEnable then (if last.value != 0 then 7 else 0)
            else LastMark(front, was)
  {
    assert (front + [last])[..|front|] == front;
  }

  lemma DropStep(front: seq<Setting>, last: Setting, colour: Colour, was: DropCfg, mid: DropCfg, now: DropCfg)
    requires DropAfter(front, colour, was, mid)
    requires now == if last.attr.Drop? && last.attr.colour == colour then
                      match last.attr.part
                      case Enable => mid.(enable := last.value != 0)
                      case Min => mid.(min := last.value)
                      case Max => mid.(max := last.value)
                      case Probability => mid.(probability := last.value)
                    else mid
    ensures DropAfter(front + [last], colour, was, now)
  {
    LastStep(front, last, Drop(colour, Enable), if was.enable then 1 else 0);
    LastStep(front, last, Drop(colour, Min), was.min);
    LastStep(front, last, Drop(colour, Max), was.max);
    LastStep(front, last, Drop(colour, Probability), was.probability);
  }

  lemma EcnStep(front: seq<Setting>, last: Setting, curve: Curve, was: EcnCfg, mid: EcnCfg, now: EcnCfg)
    requires EcnAfter(front, curve, was, mid)
    requires now == if last.attr.Ecn? && last.attr.curve == curve then
                      match last.attr.curvePart
                      case CurveMin => mid.(min := last.value)
                      case CurveMax => mid.(max := last.value)
                      case CurveProbability => mid.(probability := last.value)
                    else mid
    ensures EcnAfter(front + [last], curve, was, now)
  {
    LastStep(front, last, Ecn(curve, CurveMin), was.min);
    LastStep(front, last, Ecn(curve, CurveMax), was.max);
    LastStep(front, last, Ecn(curve, CurveProbability), was.probability);
  }

  lemma CfgStep(front: seq<Setting>, last: Setting, was: WredCfg, mid: WredCfg)
    requires CfgAfter(front, was, mid)
    ensures CfgAfter(front + [last], was, WithValue(mid, last.attr, last.value))
  {
    var now := WithValue(mid, last.attr, last.value);
    DropStep(front, last, Green, was.green, mid.green, now.green);
    DropStep(front, last, Yellow, was.yellow, mid.yellow, now.yellow);
    DropStep(front, last, Red, was.red, mid.red, now.red);
    EcnStep(front, last, EcnGreen, was.ecnGreen, mid.ecnGreen, now.ecnGreen);
    EcnStep(front, last, EcnYellow, was.ecnYellow, mid.ecnYellow, now.ecnYellow);
    EcnStep(front, last, EcnRed, was.ecnRed, mid.ecnRed, now.ecnRed);
    EcnStep(front, last, EcnUnaware, was.ecnUnaware, mid.ecnUnaware, now.ecnUnaware);
    LastStep(front, last, Weight, was.weight);
    MarkStep(front, last, was.ecnMark);
  }

  lemma {:induction false} ParseTakesLast(w: Wred, settings: seq<Setting>)
    ensures CfgAfter(settings, w.cfg, Parse(w, settings).cfg)
  {
    if settings != [] {
      var front, last := settings[..|settings| - 1], settings[|settings| - 1];
      assert settings == front + [last];
      ParseTakesLast(w, front);
      CfgStep(front, last, w.cfg, Parse(w, front).cfg);
    }
  }

  lemma ParseAddsNpus(w: Wred, settings: seq<Setting>)
    ensures NpusAfter(settings, w.npus, Parse(w, settings).npus)
  {
    ParseCollects(w, settings);
    forall n ensures n in Npus(settings) <==> exists i :: 0 <= i < |settings| && settings[i] == Setting(NpuIdList, n) {
      if n in Npus(settings) {
        var i :| 0 <= i < |settings| && settings[i].attr == NpuIdList && settings[i].value == n;
        assert settings[i] == Setting(NpuIdList, n);
      }
    }
  }

  /** The request names an attribute the parser does not know. */
  predicate NamesUnknown(settings: seq<Setting>) {
    exists i :: 0 <= i < |settings| && settings[i].attr.Unknown?
  }

  /** No row but the named one differs. */
  ghost predicate OthersStay(t: Table<Wred>, u: Table<Wred>, id: NasId) {
    forall i :: i != id ==> (i in u.rows <==> i in t.rows) && (i in t.rows ==> u.rows[i] == t.rows[i])
  }

  /**
   A SET is refused, changing nothing, for an unknown profile or attribute or when the hardware
   refuses. Else each field of the profile is the last value requested for it, or stays, the NPUs
   requested are added, and nothing else changes.
   */
  lemma SetTakesEffect(t: Table<Wred>, id: NasId, settings: seq<Setting>, o: Outside)
    ensures var (u, outcome) := Apply(t, Set(id, settings), o);
            if id !in t.rows || NamesUnknown(settings) || !o.accepts then u == t && outcome == Refused
            else
              && outcome == Done(id) && u.inUse == t.inUse && OthersStay(t, u, id) && id in u.rows
              && CfgAfter(settings, t.rows[id].cfg, u.rows[id].cfg)
              && NpusAfter(settings, t.rows[id].npus, u.rows[id].npus)
  {
    if id in t.rows {
      ParseTakesLast(t.rows[id], settings);
      ParseAddsNpus(t.rows[id], settings);
    }
  }

  const NO_DROP: DropCfg := DropCfg(false, 0, 0, 0)
  const NO_ECN: EcnCfg := EcnCfg(0, 0, 0)
  const NOTHING_SET: WredCfg := WredCfg(NO_DROP, NO_DROP, NO_DROP, NO_ECN, NO_ECN, NO_ECN, NO_ECN, 0, 0)

  /** The id a create can take: the one it names, or else the generator's choice. */
  function IdToTake(requested: NasId, choice: nat): NasId { if requested == 0 then choice else requested }

  predicate Takeable(inUse: set<NasId>, id: NasId) { 0 < id <= 500 && id !in inUse }

  /**
   A CREATE is refused, changing nothing, for an unknown attribute, without a free id up to 500, or
   when the hardware refuses. Else it adds one profile under that id, with each field the last value
   requested for it, or zero, and the NPUs requested.
   */
  lemma CreateTakesEffect(t: Table<Wred>, requested: NasId, settings: seq<Setting>, o: Outside)
    requires InStep(t, WRED_ID_MAX)
    ensures var (u, outcome) := Apply(t, Create(requested, settings), o);
            var id := IdToTake(requested, o.choice);
            if NamesUnknown(settings) || !Takeable(t.inUse, id) || !o.accepts then u == t && outcome == Refused
            else
              && outcome == Done(id) && u.inUse == t.inUse + {id} && id !in t.rows && id in u.rows
              && OthersStay(t, u, id)
              && CfgAfter(settings, NOTHING_SET, u.rows[id].cfg) && NpusAfter(settings, {}, u.rows[id].npus)
  {
    ParseTakesLast(NEW_WRED, settings);
    ParseAddsNpus(NEW_WRED, settings);
  }

  /** A DELETE takes exactly the named profile and its id away; or nothing, for an unknown one or a refusal. */
  lemma DeleteTakesEffect(t: Table<Wred>, id: NasId, o: Outside)
    ensures var (u, outcome) := Apply(t, Delete(id), o);
            if id !in t.rows || !o.accepts then u == t && outcome == Refused
            else outcome == Done(id) && u.inUse == t.inUse - {id} && id !in u.rows && OthersStay(t, u, id)
  {}

  /** After an accepted SET an attribute reads back the last value requested under it. */
  lemma SetReadsBack(t: Table<Wred>, id: NasId, settings: seq<Setting>, o: Outside, b: WredAttr, i: nat)
    requires Apply(t, Set(id, settings), o).1.Done?
    requires Canonical(b) && i < |settings| && Recorded(settings[i].attr) == b
    requires forall j :: i < j < |settings| ==> Recorded(settings[j].attr) != b
    ensures id in Apply(t, Set(id, settings), o).0.rows
    ensures CfgValue(Apply(t, Set(id, settings), o).0.rows[id].cfg, b) == Some(ReadsBack(settings[i]))
  {
    LastSettingWins(t.rows[id], settings, b, i);
  }

  /** The deprecated flag reads 1 exactly when the last mark mode requested is all, by name or by the flag. */
  lemma FlagReadsBack(t: Table<Wred>, id: NasId, settings: seq<Setting>, o: Outside, i: nat)
    requires Apply(t, Set(id, settings), o).1.Done?
    requires i < |settings| && settings[i].attr in {EcnMark, EcnEnable}
    requires forall j :: i < j < |settings| ==> settings[j].attr !in {EcnMark, EcnEnable}
    ensures var raised := if settings[i].attr == EcnMark then settings[i].value == 7 else settings[i].value != 0;
            id in Apply(t, Set(id, settings), o).0.rows
            && CfgValue(Apply(t, Set(id, settings), o).0.rows[id].cfg, EcnEnable) == Some(if raised then 1 else 0)
  {
    SetReadsBack(t, id, settings, o, EcnMark, i);
  }
}
