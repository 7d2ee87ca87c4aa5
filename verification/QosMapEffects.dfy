/** What a request on a map or an entry names, stores and leaves alone, and exactly when it is refused. */
module QosMapEffects {
  import opened Wrappers
  import opened NasIds
  import opened IdGenerator
  import opened ProfileTables
  import opened QosMaps
  import opened QosMapRuns

  // ---- Keys ----

  /** With two key attributes, both must be given; of the second a byte or sixteen bits go above the first. */
  lemma TwoPartKey(t: MapType, k: KeyAttrs)
    requires t in {TcToQueue, TcColorToDot1p, TcColorToDscp, PgToPfc, PfcToQueue}
    ensures EntryKey(t, k).None? <==> k.first.None? || k.second.None?
    ensures k.first.Some? && k.second.Some? ==>
              EntryKey(t, k).value == (k.second.value % if t == PgToPfc then 0x100 else 0x1_0000) * 0x1_0000
                                      + k.first.value % 0x100
  {
    if k.first.Some? && k.second.Some? {
      LowOfRead(t, k.second.value);
    }
  }

  lemma LowOfRead(t: MapType, v: nat)
    ensures SecondRead(t, v) % 0x1_0000 == v % if t == PgToPfc then 0x100 else 0x1_0000
  {}

  /** With one, only that one counts. */
  lemma OnePartKey(t: MapType, k: KeyAttrs)
    requires t in {Dot1pToTc, Dot1pToColor, DscpToTc, DscpToColor, TcToPg}
    ensures EntryKey(t, k) == match k.first case None => None case Some(v) => Some(v % 0x100)
  {}

  /** A byte, and for a second attribute a byte or sixteen bits. */
  predicate InRange(t: MapType, first: nat, second: nat) {
    first < 0x100 && second < if t == PgToPfc then 0x100 else 0x1_0000
  }

  function Both(first: nat, second: nat): KeyAttrs { KeyAttrs(Some(first), Some(second)) }

  /** Requests in range that differ in either attribute name different entries, and all name one. */
  lemma DifferentRequestsDiffer(t: MapType, first: nat, second: nat, first': nat, second': nat)
    requires t in {TcToQueue, TcColorToDot1p, TcColorToDscp, PgToPfc, PfcToQueue}
    requires InRange(t, first, second) && InRange(t, first', second') && (first, second) != (first', second')
    ensures EntryKey(t, Both(first, second)) != EntryKey(t, Both(first', second'))
    ensures EntryKey(t, Both(first, second)).Some?
  {
    TwoPartKey(t, Both(first, second));
    TwoPartKey(t, Both(first', second'));
    Fits(t, first, second);
    Fits(t, first', second');
  }

  lemma Fits(t: MapType, first: nat, second: nat)
    requires InRange(t, first, second)
    ensures first % 0x100 == first && second % (if t == PgToPfc then 0x100 else 0x1_0000) == second
  {}

  // ---- Entries ----

  /** The attribute of the map's type, cut to its width, and zero in every other. */
  function Stored(t: MapType, v: nat): Values {
    match t
    case Dot1pToTc => Values(v % 0x100, 0, 0, 0, 0, 0)
    case DscpToTc => Values(v % 0x100, 0, 0, 0, 0, 0)
    case Dot1pToColor => Values(0, v % 0x1_0000_0000, 0, 0, 0, 0)
    case DscpToColor => Values(0, v % 0x1_0000_0000, 0, 0, 0, 0)
    case TcColorToDscp => Values(0, 0, v % 0x100, 0, 0, 0)
    case TcColorToDot1p => Values(0, 0, 0, v % 0x100, 0, 0)
    case TcToQueue => Values(0, 0, 0, 0, v % 0x1_0000_0000, 0)
    case PfcToQueue => Values(0, 0, 0, 0, v % 0x1_0000_0000, 0)
    case TcToPg => Values(0, 0, 0, 0, 0, v % 0x100)
    case PgToPfc => Values(0, 0, 0, 0, 0, 0)
  }

  /** The second attribute names no queue type that the hardware has: none, unicast or multicast. */
  predicate BadQueueType(t: MapType, k: KeyAttrs) {
    t in {TcToQueue, PfcToQueue} && k.second.Some? && k.second.value % 0x1_0000 !in {1, 2, 3}
  }

  predicate EntryCreatable(t: Table<QosMap>, id: NasId, kind: MapType, k: KeyAttrs, value: Option<nat>, accepts: bool) {
    && EntryKey(kind, k).Some? && id in t.rows && (value.Some? || kind == PgToPfc)
    && !BadQueueType(kind, k) && accepts
  }

  /** Every key of every map, but the one named, finds what it found. */
  ghost predicate OthersStay(t: Table<QosMap>, u: Table<QosMap>, id: NasId, key: nat) {
    forall i: NasId, k: nat :: i != id || k != key ==> Lookup(u, i, k) == Lookup(t, i, k)
  }

  lemma QueueTypeOfRequest(kind: MapType, k: KeyAttrs)
    requires EntryKey(kind, k).Some?
    ensures QueueTypeOk(kind, EntryKey(kind, k).value) <==> !BadQueueType(kind, k)
  {
    if NamesQueues(kind) {
      TwoPartKey(kind, k);
      PackedHalves(k.first.value % 0x100, SecondRead(kind, k.second.value));
      LowOfRead(kind, k.second.value);
    }
  }

  /**
   A create needs the map, the key, a value (but for PG-to-PFC) and a known queue type. It leaves the
   value under the request's key, and every other key of every map finds what it found.
   */
  lemma CreateEntryTakesEffect(t: Table<QosMap>, kind: MapType, local: nat, k: KeyAttrs, value: Option<nat>,
                               accepts: bool)
    requires MapsOk(t)
    ensures var (u, outcome) := Apply(t, CreateEntry(kind, local, k, value), accepts);
            var id := MapIdOf(kind, local);
            if !EntryCreatable(t, id, kind, k, value, accepts) then u == t && outcome == Refused
            else
              && outcome == Done(id) && u.inUse == t.inUse && u.rows.Keys == t.rows.Keys
              && Lookup(u, id, EntryKey(kind, k).value)
                 == Some(MapEntry(id, kind, EntryKey(kind, k).value, Stored(kind, Given(value, 0))))
              && OthersStay(t, u, id, EntryKey(kind, k).value)
  {
    var op, id := CreateEntry(kind, local, k, value), MapIdOf(kind, local);
    StepKeepsMapsOk(t, op, accepts);
    if EntryKey(kind, k).Some? && id in t.rows {
      QueueTypeOfRequest(kind, k);
      FoundMapHasType(t, kind, local);
      if EntryCreatable(t, id, kind, k, value, accepts) {
        OnlyTheNamedEntryChanges(t, op, accepts);
        KeyNamed(op, EntryKey(kind, k).value);
        NewEntryStores(id, kind, EntryKey(kind, k).value, value);
      }
    }
  }

  lemma KeyNamed(op: MapOp, key: nat)
    requires (op.CreateEntry? || op.DeleteEntry?) && EntryKey(op.kind, op.key) == Some(key)
    ensures forall i: NasId, k: nat :: Names(op, i, k) <==> i == MapIdOf(op.kind, op.local) && k == key
  {}

  function Given(value: Option<nat>, default: nat): nat {
    match value case Some(v) => v case None => default
  }

  lemma NewEntryStores(id: NasId, kind: MapType, key: nat, value: Option<nat>)
    requires value.Some? || kind == PgToPfc
    ensures NewEntry(id, kind, key, value) == MapEntry(id, kind, key, Stored(kind, Given(value, 0)))
  {}

  /** So a request with another colour or queue type still finds its own entry. */
  lemma OtherSecondAttributeStays(t: Table<QosMap>, kind: MapType, local: nat, first: nat, second: nat, second': nat,
                                  value: Option<nat>, accepts: bool)
    requires kind in {TcToQueue, TcColorToDot1p, TcColorToDscp, PgToPfc, PfcToQueue}
    requires MapsOk(t) && InRange(kind, first, second) && InRange(kind, first, second') && second != second'
    ensures var u := Apply(t, CreateEntry(kind, local, Both(first, second), value), accepts).0;
            Lookup(u, MapIdOf(kind, local), EntryKey(kind, Both(first, second')).value)
            == Lookup(t, MapIdOf(kind, local), EntryKey(kind, Both(first, second')).value)
  {
    DifferentRequestsDiffer(kind, first, second, first, second');
    DifferentRequestsDiffer(kind, first, second', first, second);
    CreateEntryTakesEffect(t, kind, local, Both(first, second), value, accepts);
  }

  /** A delete is refused for an unknown map or entry, or by the hardware; else exactly that entry goes. */
  lemma DeleteEntryTakesEffect(t: Table<QosMap>, kind: MapType, local: nat, k: KeyAttrs, accepts: bool)
    requires MapsOk(t)
    ensures var (u, outcome) := Apply(t, DeleteEntry(kind, local, k), accepts);
            var id := MapIdOf(kind, local);
            if EntryKey(kind, k).None? || Lookup(t, id, EntryKey(kind, k).value).None? || !accepts then
              u == t && outcome == Refused
            else
              && outcome == Done(id) && u.inUse == t.inUse && u.rows.Keys == t.rows.Keys
              && Lookup(u, id, EntryKey(kind, k).value) == None
              && OthersStay(t, u, id, EntryKey(kind, k).value)
  {
    var op, id := DeleteEntry(kind, local, k), MapIdOf(kind, local);
    StepKeepsMapsOk(t, op, accepts);
    if EntryKey(kind, k).Some? && Lookup(t, id, EntryKey(kind, k).value).Some? {
      assert MapOk(id, t.rows[id]);
      if accepts {
        OnlyTheNamedEntryChanges(t, op, accepts);
        KeyNamed(op, EntryKey(kind, k).value);
      }
    }
  }

  // ---- Maps ----

  predicate LocalFree(t: Table<QosMap>, kind: MapType, l: nat) { Code(kind) * 128 + l !in t.inUse }

  /** The local id a create takes: the one given, modulo 128, or for 0 the least free one up to 126. */
  ghost predicate LocalTaken(t: Table<QosMap>, kind: MapType, local: nat, l: nat) {
    && LocalFree(t, kind, l)
    && if local % 128 != 0 then l == local % 128
       else 1 <= l <= 126 && forall m: nat :: 1 <= m < l ==> !LocalFree(t, kind, m)
  }

  ghost predicate NoLocal(t: Table<QosMap>, kind: MapType, local: nat) {
    if local % 128 != 0 then !LocalFree(t, kind, local % 128)
    else forall m: nat :: 1 <= m <= 126 ==> !LocalFree(t, kind, m)
  }

  ghost predicate Made(t: Table<QosMap>, u: Table<QosMap>, outcome: Outcome, id: NasId, kind: MapType) {
    && outcome == Done(id) && id !in t.rows && u.inUse == t.inUse + {id}
    && u.rows == t.rows[id := QosMap(id, kind, map[])]
  }

  /**
   A create adds one empty map of the type, under the id given or the least free one of the type;
   it is refused when the request names an entry, no such id is free, or the hardware refuses.
   */
  lemma CreateMapTakesEffect(t: Table<QosMap>, kind: MapType, local: nat, namesEntry: bool, accepts: bool)
    requires MapsOk(t)
    ensures var (u, outcome) := Apply(t, CreateMap(kind, local, namesEntry), accepts);
            if namesEntry || !accepts || NoLocal(t, kind, local) then u == t && outcome == Refused
            else exists l: nat :: LocalTaken(t, kind, local, l) && Made(t, u, outcome, Code(kind) * 128 + l, kind)
  {
    var id := MapIdOf(kind, local);
    PartsOfId(kind, local);
    if local % 128 == 0 {
      CreateUnspecified(t, id, kind, namesEntry, accepts);
      assert forall l: nat :: LocalTaken(t, kind, local, l) <==> LocalTaken(t, kind, 0, l);
    } else {
      CreateNamed(t, kind, local % 128, namesEntry, accepts);
      assert LocalFree(t, kind, local % 128) ==> LocalTaken(t, kind, local, local % 128);
    }
  }

  lemma CreateNamed(t: Table<QosMap>, kind: MapType, l: nat, namesEntry: bool, accepts: bool)
    requires MapsOk(t) && 0 < l < 128
    ensures var id := Code(kind) * 128 + l;
            var (u, outcome) := CreateMapAt(t, id, kind, namesEntry, accepts);
            if namesEntry || !accepts || !LocalFree(t, kind, l) then u == t && outcome == Refused
            else Made(t, u, outcome, id, kind)
  {
    CodeAndLocal(Code(kind), l);
  }

  lemma CodeAndLocal(code: nat, l: nat)
    requires code < 16 && 0 < l < 128
    ensures LocalPart(code * 128 + l) == l && 0 < code * 128 + l <= 2048
  {}

  lemma LeastIsTaken(t: Table<QosMap>, kind: MapType)
    ensures match LeastFree(t.inUse, Code(kind), 1)
            case None => NoLocal(t, kind, 0)
            case Some(l) => 1 <= l <= 126 && LocalTaken(t, kind, 0, l)
  {
    AllocationByType(t.inUse, kind);
    assert forall l: nat :: LocalFree(t, kind, l) <==> !Busy(t.inUse, Code(kind), l);
  }

  lemma CreateUnspecified(t: Table<QosMap>, id: NasId, kind: MapType, namesEntry: bool, accepts: bool)
    requires MapsOk(t) && LocalPart(id) == 0
    ensures var (u, outcome) := CreateMapAt(t, id, kind, namesEntry, accepts);
            if namesEntry || !accepts || NoLocal(t, kind, 0) then u == t && outcome == Refused
            else exists l: nat :: LocalTaken(t, kind, 0, l) && Made(t, u, outcome, Code(kind) * 128 + l, kind)
  {
    LeastIsTaken(t, kind);
    ReleaseNothing(t, id);
    var r := LeastFree(t.inUse, Code(kind), 1);
    if r.Some? {
      assert !NoLocal(t, kind, 0);
      if !namesEntry && accepts {
        AddedNew(t, kind, r.value);
        assert CreateMapAt(t, id, kind, false, true) == AddNewMap(t, Code(kind) * 128 + r.value, kind, true);
      }
    }
  }

  lemma AddedNew(t: Table<QosMap>, kind: MapType, l: nat)
    requires MapsOk(t) && LocalFree(t, kind, l)
    ensures var (u, outcome) := AddNewMap(t, Code(kind) * 128 + l, kind, true);
            Made(t, u, outcome, Code(kind) * 128 + l, kind)
  {}

  /** A delete takes a map without entries away; it is refused while the map has any. */
  lemma DeleteMapTakesEffect(t: Table<QosMap>, kind: MapType, local: nat, accepts: bool)
    ensures var (u, outcome) := Apply(t, DeleteMap(kind, local), accepts);
            var id := MapIdOf(kind, local);
            if id !in t.rows || t.rows[id].entries != map[] || !accepts then u == t && outcome == Refused
            else outcome == Done(id) && u.rows == t.rows - {id} && u.inUse == t.inUse - {id}
  {}
}
