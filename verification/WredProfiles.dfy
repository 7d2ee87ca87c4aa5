/**
 WRED profiles: configuration, attribute parsing and storing, the CPS operations and their undo.
 */
module WredProfiles {
  import opened Wrappers
  import opened NasIds
  import opened IdGenerator
  import opened ProfileTables

  const WRED_ID_MAX: nat := 500

  // ECN mark modes.
  const ECN_MARK_NONE: nat := 0
  const ECN_MARK_ALL: nat := 7

  datatype Colour = Green | Yellow | Red
  datatype DropPart = Enable | Min | Max | Probability
  datatype Curve = EcnGreen | EcnYellow | EcnRed | EcnUnaware
  datatype CurvePart = CurveMin | CurveMax | CurveProbability

  datatype WredAttr =
    | Drop(colour: Colour, part: DropPart)
    | Ecn(curve: Curve, curvePart: CurvePart)
    | Weight
    | EcnEnable      // deprecated: an alias over EcnMark
    | EcnMark
    | NpuIdList
    | Unknown(id: nat)

  datatype DropCfg = DropCfg(enable: bool, min: nat, max: nat, probability: nat)
  datatype EcnCfg = EcnCfg(min: nat, max: nat, probability: nat)

  datatype WredCfg = WredCfg(green: DropCfg, yellow: DropCfg, red: DropCfg,
                             ecnGreen: EcnCfg, ecnYellow: EcnCfg, ecnRed: EcnCfg, ecnUnaware: EcnCfg,
                             weight: nat, ecnMark: nat)

  datatype Wred = Wred(cfg: WredCfg, npus: set<nat>, setAttrs: set<WredAttr>)

  const ZERO_DROP: DropCfg := DropCfg(false, 0, 0, 0)
  const ZERO_ECN: EcnCfg := EcnCfg(0, 0, 0)
  const NEW_WRED: Wred :=
    Wred(WredCfg(ZERO_DROP, ZERO_DROP, ZERO_DROP, ZERO_ECN, ZERO_ECN, ZERO_ECN, ZERO_ECN, 0, 0), {}, {})

  // ---- Getters and setters ----

  function DropOf(c: WredCfg, colour: Colour): DropCfg {
    match colour case Green => c.green case Yellow => c.yellow case Red => c.red
  }

  function WithDrop(c: WredCfg, colour: Colour, d: DropCfg): WredCfg {
    match colour case Green => c.(green := d) case Yellow => c.(yellow := d) case Red => c.(red := d)
  }

  function EcnOf(c: WredCfg, curve: Curve): EcnCfg {
    match curve
    case EcnGreen => c.ecnGreen
    case EcnYellow => c.ecnYellow
    case EcnRed => c.ecnRed
    case EcnUnaware => c.ecnUnaware
  }

  function WithEcn(c: WredCfg, curve: Curve, e: EcnCfg): WredCfg {
    match curve
    case EcnGreen => c.(ecnGreen := e)
    case EcnYellow => c.(ecnYellow := e)
    case EcnRed => c.(ecnRed := e)
    case EcnUnaware => c.(ecnUnaware := e)
  }

  /** get_cfg_value_by_attr_id; None for attributes it rejects. */
  function CfgValue(c: WredCfg, a: WredAttr): Option<nat> {
    match a
    case Drop(colour, part) =>
      var d := DropOf(c, colour);
      Some(match part
           case Enable => (if d.enable then 1 else 0)
           case Min => d.min
           case Max => d.max
           case Probability => d.probability)
    case Ecn(curve, part) =>
      var e := EcnOf(c, curve);
      Some(match part case CurveMin => e.min case CurveMax => e.max case CurveProbability => e.probability)
    case Weight => Some(c.weight)
    case EcnEnable => Some(if c.ecnMark == ECN_MARK_ALL then 1 else 0)
    case EcnMark => Some(c.ecnMark)
    case NpuIdList => None
    case Unknown(_) => None
  }

  /** The setter the parse loop calls for an attribute. */
  function WithValue(c: WredCfg, a: WredAttr, v: nat): WredCfg {
    match a
    case Drop(colour, part) =>
      var d := DropOf(c, colour);
      WithDrop(c, colour, match part
                          case Enable => d.(enable := v != 0)
                          case Min => d.(min := v)
                          case Max => d.(max := v)
                          case Probability => d.(probability := v))
    case Ecn(curve, part) =>
      var e := EcnOf(c, curve);
      WithEcn(c, curve, match part
                        case CurveMin => e.(min := v)
                        case CurveMax => e.(max := v)
                        case CurveProbability => e.(probability := v))
    case Weight => c.(weight := v)
    case EcnEnable => c.(ecnMark := if v != 0 then ECN_MARK_ALL else ECN_MARK_NONE)
    case EcnMark => c.(ecnMark := v)
    case _ => c
  }

  /** The attribute under which a request's attribute is recorded: the ECN alias moves to EcnMark. */
  function Recorded(a: WredAttr): WredAttr {
    if a == EcnEnable then EcnMark else a
  }

  // ---- Parsing and storing ----

  datatype Setting = Setting(attr: WredAttr, value: nat)

  function ParseOne(w: Wred, s: Setting): Wred {
    Wred(WithValue(w.cfg, s.attr, s.value),
         if s.attr == NpuIdList then w.npus + {s.value} else w.npus,
         w.setAttrs + {Recorded(s.attr)})
  }

  predicate Known(settings: seq<Setting>) {
    forall i :: 0 <= i < |settings| ==> !settings[i].attr.Unknown?
  }

  function Parse(w: Wred, settings: seq<Setting>): Wred {
    if settings == [] then w
    else ParseOne(Parse(w, settings[..|settings| - 1]), settings[|settings| - 1])
  }

  /** nas_qos_cps_parse_attr: the loop over the request, on the local copy. */
  method ParseAttrs(w: Wred, settings: seq<Setting>) returns (r: Option<Wred>)
    ensures r.Some? <==> Known(settings)
    ensures r.Some? ==> r.value == Parse(w, settings)
  {
    var copy := w;
    var i := 0;
    while i < |settings|
      invariant 0 <= i <= |settings|
      invariant copy == Parse(w, settings[..i]) && Known(settings[..i])
    {
      var attr, val := settings[i].attr, settings[i].value;
      assert settings[..i + 1][..i] == settings[..i];
      match attr {
        case Unknown(_) => return None;
        case NpuIdList => copy := copy.(npus := copy.npus + {val}, setAttrs := copy.setAttrs + {attr});
        case EcnEnable => copy := copy.(cfg := WithValue(copy.cfg, attr, val), setAttrs := copy.setAttrs + {EcnMark});
        case _ => copy := copy.(cfg := WithValue(copy.cfg, attr, val), setAttrs := copy.setAttrs + {attr});
      }
      i := i + 1;
    }
    assert settings[..i] == settings;
    r := Some(copy);
  }

  ghost function Dirty(settings: seq<Setting>): set<WredAttr> {
    set i | 0 <= i < |settings| :: Recorded(settings[i].attr)
  }

  ghost function Npus(settings: seq<Setting>): set<nat> {
    set i | 0 <= i < |settings| && settings[i].attr == NpuIdList :: settings[i].value
  }

  /**
   nas_qos_store_prev_attr: the settings saved for `attrs`, in any order, each with the row's value;
   the NPU list contributes one setting per NPU.
   */
  ghost predicate StoredFor(w: Wred, attrs: set<WredAttr>, saved: seq<Setting>) {
    && (forall i :: 0 <= i < |saved| ==>
          if saved[i].attr == NpuIdList then NpuIdList in attrs && saved[i].value in w.npus
          else saved[i].attr in attrs && CfgValue(w.cfg, saved[i].attr) == Some(saved[i].value))
    && (forall a :: a in attrs && CfgValue(w.cfg, a).Some? ==> exists i :: 0 <= i < |saved| && saved[i].attr == a)
    && (NpuIdList in attrs ==>
          forall n :: n in w.npus ==> exists i :: 0 <= i < |saved| && saved[i] == Setting(NpuIdList, n))
  }

  // ---- What parsing changes ----

  predicate Canonical(a: WredAttr) { !a.EcnEnable? && !a.NpuIdList? && !a.Unknown? }

  /** Setting one attribute gives it that value (a flag, as 0 or 1) and leaves the other ones alone. */
  lemma SetOne(c: WredCfg, a: WredAttr, v: nat, b: WredAttr)
    requires Canonical(b)
    ensures Recorded(a) != b ==> CfgValue(WithValue(c, a, v), b) == CfgValue(c, b)
    ensures a == b && (a.Drop? && a.part == Enable ==> v <= 1) ==> CfgValue(WithValue(c, a, v), b) == Some(v)
  {}

  lemma {:induction false} ParseLeavesOthers(w: Wred, settings: seq<Setting>, b: WredAttr)
    requires Canonical(b) && b !in Dirty(settings)
    ensures CfgValue(Parse(w, settings).cfg, b) == CfgValue(w.cfg, b)
  {
    if settings != [] {
      var front, last := settings[..|settings| - 1], settings[|settings| - 1];
      assert Recorded(last.attr) in Dirty(settings);
      assert forall i :: 0 <= i < |front| ==> Recorded(front[i].attr) in Dirty(settings) by {
        assert forall i :: 0 <= i < |front| ==> front[i] == settings[i];
      }
      ParseLeavesOthers(w, front, b);
      SetOne(Parse(w, front).cfg, last.attr, last.value, b);
    }
  }

  /** The value an attribute reads back after a setting recorded under it: flags as 0 or 1, the alias as a mark mode. */
  function ReadsBack(s: Setting): nat {
    if s.attr == EcnEnable then (if s.value != 0 then ECN_MARK_ALL else ECN_MARK_NONE)
    else if s.attr.Drop? && s.attr.part == Enable then (if s.value != 0 then 1 else 0)
    else s.value
  }

  /** The last setting of an attribute wins, the alias counting as a setting of the mark mode. */
  lemma {:induction false} LastSettingWins(w: Wred, settings: seq<Setting>, b: WredAttr, i: nat)
    requires Canonical(b) && i < |settings| && Recorded(settings[i].attr) == b
    requires forall j :: i < j < |settings| ==> Recorded(settings[j].attr) != b
    ensures CfgValue(Parse(w, settings).cfg, b) == Some(ReadsBack(settings[i]))
  {
    var n := |settings| - 1;
    var front, last := settings[..n], settings[n];
    if i == n {
      assert CfgValue(WithValue(Parse(w, front).cfg, last.attr, last.value), b) == Some(ReadsBack(last));
    } else {
      LastSettingWins(w, front, b, i);
      SetOne(Parse(w, front).cfg, last.attr, last.value, b);
    }
  }

  lemma {:induction false} ParseCollects(w: Wred, settings: seq<Setting>)
    ensures Parse(w, settings).setAttrs == w.setAttrs + Dirty(settings)
    ensures Parse(w, settings).npus == w.npus + Npus(settings)
  {
    if settings != [] {
      var front, last := settings[..|settings| - 1], settings[|settings| - 1];
      ParseCollects(w, front);
      assert forall i :: 0 <= i < |front| ==> front[i] == settings[i];
      assert Dirty(settings) == Dirty(front) + {Recorded(last.attr)};
      assert Npus(settings) == Npus(front) + (if last.attr == NpuIdList then {last.value} else {});
    }
  }

  /** Replaying saved settings gives each saved attribute its saved value. */
  lemma {:induction false} ReplaySets(w: Wred, prior: Wred, attrs: set<WredAttr>, saved: seq<Setting>, b: WredAttr)
    requires Canonical(b) && EcnEnable !in attrs
    requires forall i :: 0 <= i < |saved| && saved[i].attr != NpuIdList ==>
               saved[i].attr in attrs && CfgValue(prior.cfg, saved[i].attr) == Some(saved[i].value)
    ensures (exists i :: 0 <= i < |saved| && saved[i].attr == b) ==>
              CfgValue(Parse(w, saved).cfg, b) == CfgValue(prior.cfg, b)
    ensures (forall i :: 0 <= i < |saved| ==>
              saved[i].attr != b) ==> CfgValue(Parse(w, saved).cfg, b) == CfgValue(w.cfg, b)
  {
    if saved != [] {
      var front, last := saved[..|saved| - 1], saved[|saved| - 1];
      assert forall i :: 0 <= i < |front| ==> front[i] == saved[i];
      ReplaySets(w, prior, attrs, front, b);
      SetOne(Parse(w, front).cfg, last.attr, last.value, b);
    }
  }

  /** Two configurations that agree on every stored attribute are equal. */
  lemma CfgExtensional(c: WredCfg, d: WredCfg)
    requires forall a :: Canonical(a) ==> CfgValue(c, a) == CfgValue(d, a)
    ensures c == d
  {
    forall colour ensures DropOf(c, colour) == DropOf(d, colour) {
      assert CfgValue(c, Drop(colour, Enable)) == CfgValue(d, Drop(colour, Enable));
      assert CfgValue(c, Drop(colour, Min)) == CfgValue(d, Drop(colour, Min));
      assert CfgValue(c, Drop(colour, Max)) == CfgValue(d, Drop(colour, Max));
      assert CfgValue(c, Drop(colour, Probability)) == CfgValue(d, Drop(colour, Probability));
    }
    forall curve ensures EcnOf(c, curve) == EcnOf(d, curve) {
      assert CfgValue(c, Ecn(curve, CurveMin)) == CfgValue(d, Ecn(curve, CurveMin));
      assert CfgValue(c, Ecn(curve, CurveMax)) == CfgValue(d, Ecn(curve, CurveMax));
      assert CfgValue(c, Ecn(curve, CurveProbability)) == CfgValue(d, Ecn(curve, CurveProbability));
    }
    assert c.green == DropOf(c, Green) && c.yellow == DropOf(c, Yellow) && c.red == DropOf(c, Red);
    assert c.ecnGreen == EcnOf(c, EcnGreen) && c.ecnYellow == EcnOf(c, EcnYellow);
    assert c.ecnRed == EcnOf(c, EcnRed) && c.ecnUnaware == EcnOf(c, EcnUnaware);
    assert d.green == DropOf(d, Green) && d.yellow == DropOf(d, Yellow) && d.red == DropOf(d, Red);
    assert d.ecnGreen == EcnOf(d, EcnGreen) && d.ecnYellow == EcnOf(d, EcnYellow);
    assert d.ecnRed == EcnOf(d, EcnRed) && d.ecnUnaware == EcnOf(d, EcnUnaware);
    assert CfgValue(c, Weight) == CfgValue(d, Weight) && CfgValue(c, EcnMark) == CfgValue(d, EcnMark);
  }

  /**
   Store and parse are inverse: replaying what was saved of `prior` restores its configuration on any
   row that differs from it only in saved attributes, whatever order they were saved in.
   */
  lemma ReplayRestores(w: Wred, prior: Wred, attrs: set<WredAttr>, saved: seq<Setting>)
    requires StoredFor(prior, attrs, saved) && EcnEnable !in attrs
    requires forall a :: Canonical(a) && a !in attrs ==> CfgValue(w.cfg, a) == CfgValue(prior.cfg, a)
    ensures Parse(w, saved).cfg == prior.cfg
    ensures Parse(w, saved).npus == w.npus + (if NpuIdList in attrs then prior.npus else {})
    ensures Known(saved)
  {
    forall a | Canonical(a) ensures CfgValue(Parse(w, saved).cfg, a) == CfgValue(prior.cfg, a) {
      ReplaySets(w, prior, attrs, saved, a);
    }
    CfgExtensional(Parse(w, saved).cfg, prior.cfg);
    ParseCollects(w, saved);
    forall n ensures n in Npus(saved) <==> NpuIdList in attrs && n in prior.npus {
      if NpuIdList in attrs && n in prior.npus {
        var i :| 0 <= i < |saved| && saved[i] == Setting(NpuIdList, n);
      }
    }
  }
}
