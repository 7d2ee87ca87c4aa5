/**
 QoS maps and their entries. A map's id packs its type and an id local to the type; an entry is
 hashed under a key that packs its one or two key attributes.
 */
module QosMaps {
  import opened Wrappers
  import opened NasIds
  import opened IdGenerator
  import opened ProfileTables

  const MAP_ID_MAX: nat := 2048
  const QUEUE_TYPE_NONE: nat := 1
  const QUEUE_TYPE_UCAST: nat := 2
  const QUEUE_TYPE_MULTICAST: nat := 3

  datatype MapType =
    | Dot1pToTc
    | Dot1pToColor
    | DscpToTc
    | DscpToColor
    | TcColorToDot1p
    | TcColorToDscp
    | TcToQueue
    | TcToPg
    | PgToPfc
    | PfcToQueue

  /**
   The number of a type. The hardware interface's header, which assigns them, is not part of this
   model: all that is used is that they differ and stay below 16.
   */
  function Code(t: MapType): (code: nat)
    ensures code < 16
  {
    match t
    case Dot1pToTc => 0
    case Dot1pToColor => 1
    case DscpToTc => 2
    case DscpToColor => 3
    case TcToQueue => 4
    case TcColorToDscp => 5
    case TcColorToDot1p => 6
    case TcToPg => 7
    case PgToPfc => 8
    case PfcToQueue => 9
  }

  lemma CodesDiffer(t: MapType, u: MapType)
    requires Code(t) == Code(u)
    ensures t == u
  {}

  predicate HasSecondKey(t: MapType) {
    t.TcToQueue? || t.TcColorToDot1p? || t.TcColorToDscp? || t.PgToPfc? || t.PfcToQueue?
  }

  predicate NamesQueues(t: MapType) { t.TcToQueue? || t.PfcToQueue? }

  // ---- Ids and keys as numbers, and the macros that compute them ----

  /** A type's ids are a block of 128; local id 0 stands for none. */
  function MapIdOf(t: MapType, local: nat): NasId {
    if local == 0 then 0 else Code(t) * 128 + local % 128
  }

  function LocalPart(id: NasId): nat { id % 128 }

  function TypePart(id: NasId): nat { (id / 128) % 32 }

  /** A composite key: the low sixteen bits of the second half above the first. */
  function PackKey(first: nat, second: nat): nat { (second % 0x1_0000) * 0x1_0000 + first }

  function LowHalf(key: nat): nat { key % 0x1_0000 }

  function HighHalf(key: nat): nat { (key / 0x1_0000) % 0x1_0000 }

  lemma EncodeIsMapIdOf(t: MapType, local: nat)
    ensures EncodeMapId(local, Code(t)) == MapIdOf(t, local)
  {
    if local > 0 {
      MapIdValue(local, Code(t));
    }
  }

  lemma MapParts(id: NasId)
    ensures LocalMapId(id) == LocalPart(id) && LocalMapType(id) == TypePart(id)
  {
    MapFieldValues(id);
  }

  lemma MakeIsPack(first: nat, second: nat)
    requires first < 0x100 && second < 0x1_0000_0000
    ensures MakeKey(first, second) == PackKey(first, second)
  {
    var low := second % 0x1_0000;
    LowOfWord(second);
    TruncatedKey(first, second);
    KeyValue(first, low);
  }

  lemma LowOfWord(n: nat)
    ensures n % 0x1_0000 < 0x1_0000 && n % 0x1_0000 % 0x1_0000 == n % 0x1_0000
  {}

  lemma HalvesOfKey(key: nat)
    ensures Key1(key) == LowHalf(key) && Key2(key) == HighHalf(key)
  {
    KeyHalves(key);
  }

  // ---- Keys ----

  /** The key attributes of a request; None when absent. */
  datatype KeyAttrs = KeyAttrs(first: Option<nat>, second: Option<nat>)

  /** The second attribute as read: a byte for a PFC priority, else 32 bits. */
  function SecondRead(t: MapType, v: nat): nat {
    if t.PgToPfc? then v % 0x100 else v % 0x1_0000_0000
  }

  /** The key a request names. */
  function EntryKey(t: MapType, k: KeyAttrs): Option<nat> {
    if k.first.None? then None
    else if !HasSecondKey(t) then Some(k.first.value % 0x100)
    else if k.second.None? then None
    else Some(PackKey(k.first.value % 0x100, SecondRead(t, k.second.value)))
  }

  /** The attributes reported or saved for a key. */
  function KeyData(t: MapType, key: nat): KeyAttrs {
    if HasSecondKey(t) then KeyAttrs(Some(LowHalf(key) % 0x100), Some(SecondRead(t, HighHalf(key))))
    else KeyAttrs(Some(key % 0x100), None)
  }

  /** qos_map_entry_get_key; None is the error return. */
  method GetEntryKey(t: MapType, k: KeyAttrs) returns (key: Option<nat>)
    ensures key == EntryKey(t, k)
    ensures t in {TcToQueue, TcColorToDot1p, TcColorToDscp, PgToPfc, PfcToQueue} ==>
              (key.None? <==> k.first.None? || k.second.None?)
    ensures t in {Dot1pToTc, Dot1pToColor, DscpToTc, DscpToColor, TcToPg} ==> (key.None? <==> k.first.None?)
  {
    if k.first.None? {
      return None;
    }
    var first := k.first.value % 0x100;
    if !HasSecondKey(t) {
      return Some(first);
    }
    if k.second.None? {
      return None;
    }
    var second := SecondRead(t, k.second.value);
    MakeIsPack(first, second);
    key := Some(MakeKey(first, second));
  }

  /** _fill_entry_key_data */
  method FillEntryKeyData(t: MapType, key: nat) returns (k: KeyAttrs)
    ensures k == KeyData(t, key)
  {
    HalvesOfKey(key);
    if HasSecondKey(t) {
      k := KeyAttrs(Some(Key1(key) % 0x100), Some(SecondRead(t, Key2(key))));
    } else {
      k := KeyAttrs(Some(key % 0x100), None);
    }
  }

  /** The keys a request can form: reporting one and asking for what was reported gives it back. */
  ghost predicate KeyOk(t: MapType, key: nat) {
    EntryKey(t, KeyData(t, key)) == Some(key)
  }

  lemma PackedHalves(first: nat, second: nat)
    requires first < 0x100
    ensures LowHalf(PackKey(first, second)) == first && HighHalf(PackKey(first, second)) == second % 0x1_0000
    ensures LowHalf(PackKey(first, second)) % 0x100 == first
  {}

  lemma SecondReadTwice(t: MapType, v: nat)
    ensures SecondRead(t, v) < 0x1_0000_0000
    ensures SecondRead(t, SecondRead(t, v) % 0x1_0000) == SecondRead(t, v) % 0x1_0000
  {}

  /** Every key a request forms is reported by attributes that form it again. */
  lemma EntryKeyIsOk(t: MapType, k: KeyAttrs)
    requires EntryKey(t, k).Some?
    ensures KeyOk(t, EntryKey(t, k).value)
  {
    if HasSecondKey(t) {
      var first, second := k.first.value % 0x100, SecondRead(t, k.second.value);
      SecondReadTwice(t, k.second.value);
      PackedHalves(first, second);
      LowOfWord(second);
    }
  }

  /**
   Attributes are reported back as given exactly when they fit: a byte, and for the second a byte or
   sixteen bits (of a 32-bit attribute only the low half is kept). So under these bounds no two
   requests of one type share a key.
   */
  lemma EntryKeySplits(t: MapType, first: nat, second: nat)
    requires t in {TcToQueue, TcColorToDot1p, TcColorToDscp, PgToPfc, PfcToQueue}
    ensures var k := KeyAttrs(Some(first), Some(second));
            EntryKey(t, k).Some?
    ensures var k := KeyAttrs(Some(first), Some(second));
            KeyData(t, EntryKey(t, k).value) == k <==>
            first < 0x100 && second < (if t.PgToPfc? then 0x100 else 0x1_0000)
  {
    var b, s := first % 0x100, SecondRead(t, second);
    SecondReadTwice(t, second);
    PackedHalves(b, s);
    FitsItself(t, second);
    FitsByte(first);
  }

  lemma FitsByte(n: nat)
    ensures n % 0x100 == n <==> n < 0x100
  {}

  lemma FitsItself(t: MapType, v: nat)
    ensures SecondRead(t, v) % 0x1_0000 == v <==> v < (if t.PgToPfc? then 0x100 else 0x1_0000)
  {}

  // ---- Entries and maps ----

  datatype Values = Values(tc: nat, color: nat, dscp: nat, dot1p: nat, queueNum: nat, pg: nat)

  const NO_VALUES: Values := Values(0, 0, 0, 0, 0, 0)

  /** The one field a map of this type uses; none for PG-to-PFC, whose priority is in the key. */
  function ValueIn(t: MapType, v: Values): nat {
    match t
    case Dot1pToTc => v.tc
    case DscpToTc => v.tc
    case Dot1pToColor => v.color
    case DscpToColor => v.color
    case TcColorToDot1p => v.dot1p
    case TcColorToDscp => v.dscp
    case TcToQueue => v.queueNum
    case PfcToQueue => v.queueNum
    case TcToPg => v.pg
    case PgToPfc => 0
  }

  function WithValue(t: MapType, v: Values, n: nat): Values {
    match t
    case Dot1pToTc => v.(tc := n)
    case DscpToTc => v.(tc := n)
    case Dot1pToColor => v.(color := n)
    case DscpToColor => v.(color := n)
    case TcColorToDot1p => v.(dot1p := n)
    case TcColorToDscp => v.(dscp := n)
    case TcToQueue => v.(queueNum := n)
    case PfcToQueue => v.(queueNum := n)
    case TcToPg => v.(pg := n)
    case PgToPfc => v
  }

  /** The value as parsed: a byte, or 32 bits for colours and queue numbers. */
  function ValueRead(t: MapType, n: nat): nat {
    match t
    case Dot1pToColor => n % 0x1_0000_0000
    case DscpToColor => n % 0x1_0000_0000
    case TcToQueue => n % 0x1_0000_0000
    case PfcToQueue => n % 0x1_0000_0000
    case PgToPfc => 0
    case _ => n % 0x100
  }

  datatype MapEntry = MapEntry(mapId: NasId, kind: MapType, key: nat, values: Values)

  datatype QosMap = QosMap(mapId: NasId, kind: MapType, entries: map<nat, MapEntry>)

  function NewEntry(mapId: NasId, t: MapType, key: nat, value: Option<nat>): MapEntry {
    MapEntry(mapId, t, key, if value.Some? then WithValue(t, NO_VALUES, ValueRead(t, value.value)) else NO_VALUES)
  }

  /** add_map_entry: a new key is inserted, an existing entry has its one value overwritten. */
  function AddEntry(m: QosMap, key: nat, e: MapEntry): QosMap {
    if key in m.entries then
      var was := m.entries[key];
      m.(entries := m.entries[key := was.(values := WithValue(m.kind, was.values, ValueIn(m.kind, e.values)))])
    else m.(entries := m.entries[key := e])
  }

  // ---- Allocation of local ids ----

  /** The least free local id of a type, from `local` up to 126; its id is the type's block plus it. */
  function LeastFree(inUse: set<NasId>, code: nat, local: nat): Option<nat>
    decreases MAX_MAP_ID_PER_TYPE - local
  {
    if local >= MAX_MAP_ID_PER_TYPE then None
    else if IsFree(inUse, MAP_ID_MAX, code * 128 + local) then Some(local)
    else LeastFree(inUse, code, local + 1)
  }

  /** Local id l of a type is in use. */
  predicate Busy(inUse: set<NasId>, code: nat, l: nat) { code * 128 + l in inUse }

  lemma {:induction false} LeastFreeIsLeast(inUse: set<NasId>, code: nat, local: nat)
    requires code < 16 && local > 0
    ensures var r := LeastFree(inUse, code, local);
            && (r.Some? ==> local <= r.value < 127 && !Busy(inUse, code, r.value)
                            && forall l: nat :: local <= l < r.value ==> Busy(inUse, code, l))
            && (r.None? ==> forall l: nat :: local <= l < 127 ==> Busy(inUse, code, l))
    decreases 127 - local
  {
    if local < 127 && Busy(inUse, code, local) {
      LeastFreeIsLeast(inUse, code, local + 1);
    }
  }

  /**
   Allocation for a type takes the least local id in 1..126 not in use, its id carries the type, so
   ids of other types are never touched; it throws exactly when all 126 are in use.
   */
  lemma AllocationByType(inUse: set<NasId>, t: MapType)
    ensures var r := LeastFree(inUse, Code(t), 1);
            && (r.None? <==> forall l: nat :: 1 <= l <= 126 ==> Busy(inUse, Code(t), l))
            && (r.Some? ==>
                  && 1 <= r.value <= 126 && !Busy(inUse, Code(t), r.value)
                  && (forall l: nat :: 1 <= l < r.value ==> Busy(inUse, Code(t), l))
                  && var id := MapIdOf(t, r.value);
                  0 < id <= MAP_ID_MAX && id == Code(t) * 128 + r.value
                  && TypePart(id) == Code(t) && LocalPart(id) == r.value)
  {
    LeastFreeIsLeast(inUse, Code(t), 1);
    var r := LeastFree(inUse, Code(t), 1);
    if r.Some? {
      IdParts(Code(t), r.value);
    }
  }

  lemma IdParts(code: nat, local: nat)
    requires code < 16 && 1 <= local <= 126
    ensures var id := code * 128 + local;
            0 < id <= MAP_ID_MAX && TypePart(id) == code && LocalPart(id) == local && local % 128 == local
  {}

  // ---- The operations ----

  datatype MapOp =
    | CreateMap(kind: MapType, local: nat, namesEntry: bool)
    | DeleteMap(kind: MapType, local: nat)
    | CreateEntry(kind: MapType, local: nat, key: KeyAttrs, value: Option<nat>)
    | DeleteEntry(kind: MapType, local: nat, key: KeyAttrs)

  /** Queue maps must name a known queue type, or the hardware queue number cannot be formed. */
  predicate QueueTypeOk(t: MapType, key: nat) {
    NamesQueues(t) ==>
      HighHalf(key) == QUEUE_TYPE_NONE || HighHalf(key) == QUEUE_TYPE_UCAST || HighHalf(key) == QUEUE_TYPE_MULTICAST
  }

  /** `id` is the encoded id of the request. */
  function CreateMapAt(t: Table<QosMap>, id: NasId, kind: MapType, namesEntry: bool, accepts: bool): (Table<QosMap>,
                       Outcome) {
    if namesEntry then (t, Refused)
    else if LocalPart(id) == 0 then
      // unspecified
      match LeastFree(t.inUse, Code(kind), 1)
      case None => (t.(inUse := t.inUse - {id}), Refused)
      case Some(l) => AddNewMap(t, Code(kind) * 128 + l, kind, accepts)
    else if !IsFree(t.inUse, MAP_ID_MAX, id) then (t, Refused)
    else AddNewMap(t, id, kind, accepts)
  }

  function AddNewMap(t: Table<QosMap>, id: NasId, kind: MapType, accepts: bool): (Table<QosMap>, Outcome) {
    if !accepts then (t, Refused)
    else if id in t.rows then (t, Duplicate)
    else (Table(t.rows[id := QosMap(id, kind, map[])], t.inUse + {id}), Done(id))
  }

  function DeleteMapAt(t: Table<QosMap>, id: NasId, accepts: bool): (Table<QosMap>, Outcome) {
    if id !in t.rows || |t.rows[id].entries| != 0 then (t, Refused)
    else DeleteRow(t, id, accepts)
  }

  function CreateEntryAt(t: Table<QosMap>, id: NasId, kind: MapType, key: Option<nat>, value: Option<nat>,
                         accepts: bool): (Table<QosMap>, Outcome) {
    if key.None? || id !in t.rows || t.rows[id].kind != kind then (t, Refused)
    else if (value.None? && !kind.PgToPfc?) || !QueueTypeOk(kind, key.value) then (t, Refused)
    else UpdateRow(t, id, accepts, AddEntry(t.rows[id], key.value, NewEntry(id, kind, key.value, value)))
  }

  function DeleteEntryAt(t: Table<QosMap>, id: NasId, key: Option<nat>, accepts: bool): (Table<QosMap>, Outcome) {
    if key.None? || id !in t.rows || key.value !in t.rows[id].entries then (t, Refused)
    else if !QueueTypeOk(t.rows[id].entries[key.value].kind, key.value) then (t, Refused)
    else UpdateRow(t, id, accepts, t.rows[id].(entries := t.rows[id].entries - {key.value}))
  }

  function Apply(t: Table<QosMap>, op: MapOp, accepts: bool): (Table<QosMap>, Outcome) {
    var id := MapIdOf(op.kind, op.local);
    match op
    case CreateMap(kind, _, namesEntry) => CreateMapAt(t, id, kind, namesEntry, accepts)
    case DeleteMap(_, _) => DeleteMapAt(t, id, accepts)
    case CreateEntry(kind, _, k, value) => CreateEntryAt(t, id, kind, EntryKey(kind, k), value, accepts)
    case DeleteEntry(kind, _, k) => DeleteEntryAt(t, id, EntryKey(kind, k), accepts)
  }

  // ---- The map tables of the switch object ----

  /** The encoding macro, as used on a local id in range. */
  method EncodedId(kind: MapType, local: nat) returns (id: NasId)
    requires 0 < local < MAX_MAP_ID_PER_TYPE
    ensures id == Code(kind) * 128 + local
  {
    id := EncodeMapId(local, Code(kind));
    assert id == Code(kind) * 128 + local by {
      EncodeIsMapIdOf(kind, local);
      LowOfLocal(local);
    }
  }

  lemma LowOfLocal(n: nat)
    requires n < 128
    ensures n % 128 == n
  {}

  class MapStore {
    var maps: map<NasId, QosMap>
    var inUse: set<NasId>

    constructor ()
      ensures State() == Table(map[], {})
    {
      maps, inUse := map[], {};
    }

    ghost function State(): Table<QosMap>
      reads this
    {
      Table(maps, inUse)
    }

    method Reserve(id: NasId) returns (ok: bool)
      modifies this`inUse
      ensures ok <==> IsFree(old(inUse), MAP_ID_MAX, id)
      ensures inUse == if ok then old(inUse) + {id} else old(inUse)
    {
      ok := IsFree(inUse, MAP_ID_MAX, id);
      if ok {
        inUse := inUse + {id};
      }
    }

    method ReserveLocal(kind: MapType, local: nat) returns (r: Option<NasId>)
      requires 0 < local < MAX_MAP_ID_PER_TYPE
      modifies this`inUse
      ensures if IsFree(old(inUse), MAP_ID_MAX, Code(kind) * 128 + local)
              then r == Some(Code(kind) * 128 + local) && inUse == old(inUse) + {r.value}
              else r == None && inUse == old(inUse)
    {
      var id := EncodedId(kind, local);
      var ok := Reserve(id);
      r := if ok then Some(id) else None;
    }

    /** alloc_map_id_by_type: None is the exception. */
    method AllocMapIdByType(kind: MapType) returns (r: Option<NasId>)
      modifies this`inUse
      ensures match LeastFree(old(inUse), Code(kind), 1)
              case None => r == None && inUse == old(inUse)
              case Some(l) => r == Some(Code(kind) * 128 + l) && inUse == old(inUse) + {r.value}
    {
      var local: nat := 1;
      while local < MAX_MAP_ID_PER_TYPE
        invariant 1 <= local <= MAX_MAP_ID_PER_TYPE && inUse == old(inUse)
        invariant LeastFree(inUse, Code(kind), 1) == LeastFree(inUse, Code(kind), local)
      {
        r := ReserveLocal(kind, local);
        if r.Some? {
          return;
        }
        local := local + 1;
      }
      r := None;
    }

    method AddMap(id: NasId, kind: MapType, accepts: bool) returns (outcome: Outcome)
      requires id in inUse
      modifies this`maps, this`inUse
      ensures (State(), outcome) == AddNewMap(Table(old(maps), old(inUse) - {id}), id, kind, accepts)
    {
      if !accepts || id in maps {
        inUse := inUse - {id};
        return if accepts then Duplicate else Refused;
      }
      maps := maps[id := QosMap(id, kind, map[])];
      assert inUse == inUse - {id} + {id};
      outcome := Done(id);
    }

    /** Here and below, `id` is the encoded id of the request and `key` its entry key. */
    method Create(id: NasId, kind: MapType, namesEntry: bool, accepts: bool) returns (outcome: Outcome)
      modifies this`maps, this`inUse
      ensures (State(), outcome) == CreateMapAt(old(State()), id, kind, namesEntry, accepts)
    {
      if namesEntry {
        return Refused;
      }
      var mapId := id;
      MapParts(id);
      if LocalMapId(id) == 0 {
        LeastFreeIsLeast(inUse, Code(kind), 1);
        var taken := AllocMapIdByType(kind);
        if taken.None? {
          inUse := inUse - {id};
          return Refused;
        }
        mapId := taken.value;
      } else {
        var ok := Reserve(id);
        if !ok {
          return Refused;
        }
      }
      assert inUse - {mapId} == old(inUse);
      outcome := AddMap(mapId, kind, accepts);
    }

    method Delete(id: NasId, accepts: bool) returns (outcome: Outcome)
      modifies this`maps, this`inUse
      ensures (State(), outcome) == DeleteMapAt(old(State()), id, accepts)
    {
      if id !in maps || |maps[id].entries| != 0 || !accepts {
        return Refused;
      }
      inUse := inUse - {id};
      maps := maps - {id};
      outcome := Done(id);
    }

    /** nas_qos_map::add_map_entry on the map held in the table. */
    method AddMapEntry(id: NasId, key: nat, e: MapEntry)
      requires id in maps
      modifies this`maps
      ensures maps == old(maps)[id := AddEntry(old(maps)[id], key, e)]
    {
      var m := maps[id];
      if key in m.entries {
        var ent := m.entries[key];
        match m.kind {
          case Dot1pToTc => ent := ent.(values := ent.values.(tc := e.values.tc));
          case DscpToTc => ent := ent.(values := ent.values.(tc := e.values.tc));
          case Dot1pToColor => ent := ent.(values := ent.values.(color := e.values.color));
          case DscpToColor => ent := ent.(values := ent.values.(color := e.values.color));
          case TcColorToDot1p => ent := ent.(values := ent.values.(dot1p := e.values.dot1p));
          case TcColorToDscp => ent := ent.(values := ent.values.(dscp := e.values.dscp));
          case TcToQueue => ent := ent.(values := ent.values.(queueNum := e.values.queueNum));
          case PfcToQueue => ent := ent.(values := ent.values.(queueNum := e.values.queueNum));
          case TcToPg => ent := ent.(values := ent.values.(pg := e.values.pg));
          case PgToPfc =>
        }
        maps := maps[id := m.(entries := m.entries[key := ent])];
        return;
      }
      maps := maps[id := m.(entries := m.entries[key := e])];
    }

    method CreateMapEntry(id: NasId, kind: MapType, key: Option<nat>, value: Option<nat>, accepts: bool)
      returns (outcome: Outcome)
      modifies this`maps
      ensures (State(), outcome) == CreateEntryAt(old(State()), id, kind, key, value, accepts)
    {
      if key.None? || id !in maps || maps[id].kind != kind {
        return Refused;
      }
      if (value.None? && !kind.PgToPfc?) || !QueueTypeOk(kind, key.value) || !accepts {
        return Refused;
      }
      AddMapEntry(id, key.value, NewEntry(id, kind, key.value, value));
      outcome := Done(id);
    }

    method DeleteMapEntry(id: NasId, key: Option<nat>, accepts: bool) returns (outcome: Outcome)
      modifies this`maps
      ensures (State(), outcome) == DeleteEntryAt(old(State()), id, key, accepts)
    {
      if key.None? || id !in maps || key.value !in maps[id].entries {
        return Refused;
      }
      if !QueueTypeOk(maps[id].entries[key.value].kind, key.value) || !accepts {
        return Refused;
      }
      maps := maps[id := maps[id].(entries := maps[id].entries - {key.value})];
      outcome := Done(id);
    }
  }
}
