/** What every run keeps of the map tables, what a read of one entry finds, and what undo restores. */
module QosMapRuns {
  import opened Wrappers
  import opened NasIds
  import opened IdGenerator
  import opened ProfileTables
  import opened QosMaps

  // ---- The invariant ----

  /** An entry sits under its own key, belongs to its map, and holds the one value of its type. */
  ghost predicate EntryOk(m: QosMap, key: nat, e: MapEntry) {
    && e.key == key && e.mapId == m.mapId && e.kind == m.kind
    && KeyOk(m.kind, key) && QueueTypeOk(m.kind, key)
    && e.values == WithValue(m.kind, NO_VALUES, ValueIn(m.kind, e.values))
    && ValueRead(m.kind, ValueIn(m.kind, e.values)) == ValueIn(m.kind, e.values)
  }

  ghost predicate MapOk(id: NasId, m: QosMap) {
    && m.mapId == id && TypePart(id) == Code(m.kind) && LocalPart(id) != 0
    && forall key :: key in m.entries ==> EntryOk(m, key, m.entries[key])
  }

  ghost predicate MapsOk(t: Table<QosMap>) {
    InStep(t, MAP_ID_MAX) && forall id :: id in t.rows ==> MapOk(id, t.rows[id])
  }

  lemma PartsOfId(kind: MapType, local: nat)
    ensures var id := MapIdOf(kind, local);
            && id < 2048 && LocalPart(id) == local % 128
            && (LocalPart(id) != 0 ==> TypePart(id) == Code(kind) && MapIdOf(kind, LocalPart(id)) == id)
  {}

  lemma OneValue(t: MapType, n: nat)
    ensures var v := WithValue(t, NO_VALUES, n);
            ValueIn(t, v) == (if t.PgToPfc? then 0 else n) && WithValue(t, NO_VALUES, ValueIn(t, v)) == v
  {}

  lemma ReadTwice(t: MapType, n: nat)
    ensures ValueRead(t, ValueRead(t, n)) == ValueRead(t, n)
    ensures ValueRead(t, 0) == 0 && (t.PgToPfc? ==> ValueRead(t, n) == 0)
  {}

  lemma NewEntryOk(m: QosMap, key: nat, value: Option<nat>)
    requires KeyOk(m.kind, key) && QueueTypeOk(m.kind, key)
    ensures EntryOk(m, key, NewEntry(m.mapId, m.kind, key, value))
    ensures ValueIn(m.kind, NewEntry(m.mapId, m.kind, key, value).values)
         == if value.Some? then ValueRead(m.kind, value.value) else 0
  {
    OneValue(m.kind, if value.Some? then ValueRead(m.kind, value.value) else 0);
    assert ValueIn(m.kind, NO_VALUES) == 0 && WithValue(m.kind, NO_VALUES, 0) == NO_VALUES;
    ReadTwice(m.kind, if value.Some? then value.value else 0);
  }

  /**
   In a reachable map, overwriting the one value in place and replacing the whole entry are the same,
   so a create leaves exactly the requested entry under its key whether or not one was there.
   */
  lemma OverwriteIsReplace(m: QosMap, key: nat, e: MapEntry)
    requires key in m.entries ==> EntryOk(m, key, m.entries[key])
    requires EntryOk(m, key, e)
    ensures AddEntry(m, key, e) == m.(entries := m.entries[key := e])
  {}

  // ---- Every step and every run ----

  lemma AddNewMapKeepsOk(t: Table<QosMap>, kind: MapType, id: NasId, accepts: bool)
    requires MapsOk(t) && IsFree(t.inUse, MAP_ID_MAX, id)
    requires TypePart(id) == Code(kind) && LocalPart(id) != 0
    ensures MapsOk(AddNewMap(t, id, kind, accepts).0) && AddNewMap(t, id, kind, accepts).1 != Duplicate
    ensures AddNewMap(t, id, kind, accepts).1 == Refused ==> AddNewMap(t, id, kind, accepts).0 == t
  {}

  /** An unspecified local id encodes to an id that no map has, so giving it back changes nothing. */
  lemma ReleaseNothing(t: Table<QosMap>, id: NasId)
    requires MapsOk(t) && LocalPart(id) == 0
    ensures t.(inUse := t.inUse - {id}) == t
  {
    assert id !in t.inUse;
  }

  lemma CreateMapKeepsOk(t: Table<QosMap>, id: NasId, kind: MapType, namesEntry: bool, accepts: bool)
    requires MapsOk(t) && (LocalPart(id) != 0 ==> TypePart(id) == Code(kind))
    ensures var (u, outcome) := CreateMapAt(t, id, kind, namesEntry, accepts);
            MapsOk(u) && outcome != Duplicate && (outcome == Refused ==> u == t)
  {
    if !namesEntry {
      if LocalPart(id) == 0 {
        UnspecifiedMapKeepsOk(t, id, kind, accepts);
      } else if IsFree(t.inUse, MAP_ID_MAX, id) {
        AddNewMapKeepsOk(t, kind, id, accepts);
      }
    }
  }

  lemma UnspecifiedMapKeepsOk(t: Table<QosMap>, id: NasId, kind: MapType, accepts: bool)
    requires MapsOk(t) && LocalPart(id) == 0
    ensures var (u, outcome) := CreateMapAt(t, id, kind, false, accepts);
            MapsOk(u) && outcome != Duplicate && (outcome == Refused ==> u == t)
  {
    UnspecifiedKeepsOk(t, kind, accepts);
    ReleaseNothing(t, id);
  }

  lemma UnspecifiedKeepsOk(t: Table<QosMap>, kind: MapType, accepts: bool)
    requires MapsOk(t)
    ensures var l := LeastFree(t.inUse, Code(kind), 1);
            l.Some? ==>
              var (u, outcome) := AddNewMap(t, Code(kind) * 128 + l.value, kind, accepts);
              MapsOk(u) && outcome != Duplicate && (outcome == Refused ==> u == t)
  {
    AllocationByType(t.inUse, kind);
    var l := LeastFree(t.inUse, Code(kind), 1);
    if l.Some? {
      AddNewMapKeepsOk(t, kind, Code(kind) * 128 + l.value, accepts);
    }
  }

  function PutEntry(t: Table<QosMap>, id: NasId, key: nat, e: MapEntry): Table<QosMap>
    requires id in t.rows
  {
    t.(rows := t.rows[id := t.rows[id].(entries := t.rows[id].entries[key := e])])
  }

  function DropEntry(t: Table<QosMap>, id: NasId, key: nat): Table<QosMap>
    requires id in t.rows
  {
    t.(rows := t.rows[id := t.rows[id].(entries := t.rows[id].entries - {key})])
  }

  /** A create of an entry is refused, or puts the requested entry under its key. */
  lemma CreateEntryPuts(t: Table<QosMap>, id: NasId, kind: MapType, key: Option<nat>, value: Option<nat>, accepts: bool)
    requires MapsOk(t) && (key.Some? ==> KeyOk(kind, key.value))
    ensures var (u, outcome) := CreateEntryAt(t, id, kind, key, value, accepts);
            if outcome.Done? then
              && outcome.id == id && id in t.rows && t.rows[id].kind == kind && key.Some?
              && (var e := NewEntry(id, kind, key.value, value);
                  u == PutEntry(t, id, key.value, e) && EntryOk(t.rows[id], key.value, e))
            else outcome == Refused && u == t
  {
    if key.Some? && id in t.rows && t.rows[id].kind == kind && QueueTypeOk(kind, key.value) {
      var m := t.rows[id];
      assert MapOk(id, m);
      NewEntryOk(m, key.value, value);
      OverwriteIsReplace(m, key.value, NewEntry(id, kind, key.value, value));
    }
  }

  lemma PutKeepsOk(t: Table<QosMap>, id: NasId, key: nat, e: MapEntry)
    requires MapsOk(t) && id in t.rows && EntryOk(t.rows[id], key, e)
    ensures MapsOk(PutEntry(t, id, key, e))
  {
    var u := PutEntry(t, id, key, e);
    forall i | i in u.rows ensures MapOk(i, u.rows[i]) {
      assert MapOk(i, t.rows[i]);
      SameEntryRules(t.rows[i], u.rows[i]);
    }
  }

  lemma DropKeepsOk(t: Table<QosMap>, id: NasId, key: nat)
    requires MapsOk(t) && id in t.rows
    ensures MapsOk(DropEntry(t, id, key))
  {
    var u := DropEntry(t, id, key);
    forall i | i in u.rows ensures MapOk(i, u.rows[i]) {
      assert MapOk(i, t.rows[i]);
      SameEntryRules(t.rows[i], u.rows[i]);
    }
  }

  lemma SameEntryRules(m: QosMap, n: QosMap)
    requires m.mapId == n.mapId && m.kind == n.kind
    ensures forall key, e :: EntryOk(m, key, e) ==> EntryOk(n, key, e)
  {}

  lemma StepKeepsMapsOk(t: Table<QosMap>, op: MapOp, accepts: bool)
    requires MapsOk(t)
    ensures var (u, outcome) := Apply(t, op, accepts);
            MapsOk(u) && outcome != Duplicate && (outcome == Refused ==> u == t)
  {
    var id := MapIdOf(op.kind, op.local);
    match op {
      case CreateMap(kind, local, namesEntry) =>
        PartsOfId(kind, local);
        CreateMapKeepsOk(t, id, kind, namesEntry, accepts);
      case CreateEntry(kind, _, k, value) =>
        CreateEntryKeepsOk(t, id, kind, k, value, accepts);
      case DeleteMap(_, _) =>
        DeleteMapKeepsOk(t, id, accepts);
      case DeleteEntry(kind, _, k) =>
        DeleteEntryKeepsOk(t, id, EntryKey(kind, k), accepts);
    }
  }

  lemma CreateEntryKeepsOk(t: Table<QosMap>, id: NasId, kind: MapType, k: KeyAttrs, value: Option<nat>, accepts: bool)
    requires MapsOk(t)
    ensures var (u, outcome) := CreateEntryAt(t, id, kind, EntryKey(kind, k), value, accepts);
            MapsOk(u) && outcome != Duplicate && (outcome == Refused ==> u == t)
  {
    var key := EntryKey(kind, k);
    if key.Some? {
      EntryKeyIsOk(kind, k);
      CreateEntryPuts(t, id, kind, key, value, accepts);
      if CreateEntryAt(t, id, kind, key, value, accepts).1.Done? {
        PutKeepsOk(t, id, key.value, NewEntry(id, kind, key.value, value));
      }
    }
  }

  lemma DeleteMapKeepsOk(t: Table<QosMap>, id: NasId, accepts: bool)
    requires MapsOk(t)
    ensures var (u, outcome) := DeleteMapAt(t, id, accepts);
            MapsOk(u) && outcome != Duplicate && (outcome == Refused ==> u == t)
  {}

  lemma DeleteEntryKeepsOk(t: Table<QosMap>, id: NasId, key: Option<nat>, accepts: bool)
    requires MapsOk(t)
    ensures var (u, outcome) := DeleteEntryAt(t, id, key, accepts);
            MapsOk(u) && outcome != Duplicate && (outcome == Refused ==> u == t)
  {
    if key.Some? && id in t.rows {
      DropKeepsOk(t, id, key.value);
    }
  }

  datatype Event = Event(op: MapOp, accepts: bool)

  function RunMaps(t: Table<QosMap>, events: seq<Event>): Table<QosMap>
    decreases |events|
  {
    if events == [] then t else RunMaps(Apply(t, events[0].op, events[0].accepts).0, events[1..])
  }

  /**
   Over every run, refused operations included: the ids in use are the keys of the table, every id
   carries its map's type, and every entry sits under its own key.
   */
  lemma {:induction false} MapsOkInEveryRun(t: Table<QosMap>, events: seq<Event>)
    requires MapsOk(t)
    ensures MapsOk(RunMaps(t, events))
    decreases |events|
  {
    if events != [] {
      StepKeepsMapsOk(t, events[0].op, events[0].accepts);
      MapsOkInEveryRun(Apply(t, events[0].op, events[0].accepts).0, events[1..]);
    }
  }

  /** So the type-mismatch error is unreachable: the map found under a type's id is of that type. */
  lemma FoundMapHasType(t: Table<QosMap>, kind: MapType, local: nat)
    requires MapsOk(t) && MapIdOf(kind, local) in t.rows
    ensures t.rows[MapIdOf(kind, local)].kind == kind
  {
    var id := MapIdOf(kind, local);
    PartsOfId(kind, local);
    assert MapOk(id, t.rows[id]);
    CodesDiffer(t.rows[id].kind, kind);
  }

  // ---- What an operation changes ----

  /** The map an operation on entries names, and the key. */
  predicate Names(op: MapOp, id: NasId, key: nat) {
    (op.CreateEntry? || op.DeleteEntry?)
    && id == MapIdOf(op.kind, op.local) && EntryKey(op.kind, op.key) == Some(key)
  }

  /** The entry of a map under a key, if any. */
  function Lookup(t: Table<QosMap>, id: NasId, key: nat): Option<MapEntry> {
    if id in t.rows && key in t.rows[id].entries then Some(t.rows[id].entries[key]) else None
  }

  /**
   A successful entry operation sets exactly the named entry (create, also over an existing one) or
   removes exactly it (delete); every other entry of every map, the set of maps and the ids in use
   are untouched. Creating or deleting a map touches no entry at all.
   */
  lemma OnlyTheNamedEntryChanges(t: Table<QosMap>, op: MapOp, accepts: bool)
    requires MapsOk(t) && Apply(t, op, accepts).1.Done?
    ensures var u := Apply(t, op, accepts).0;
            forall id, key :: Lookup(u, id, key) ==
              if Names(op, id, key) then
                (if op.CreateEntry? then Some(NewEntry(id, op.kind, key, op.value)) else None)
              else Lookup(t, id, key)
    ensures op.CreateEntry? || op.DeleteEntry? ==>
              Apply(t, op, accepts).0.rows.Keys == t.rows.Keys && Apply(t, op, accepts).0.inUse == t.inUse
  {
    var id, u := MapIdOf(op.kind, op.local), Apply(t, op, accepts).0;
    match op {
      case CreateEntry(kind, _, k, value) =>
        EntryKeyIsOk(kind, k);
        CreateEntryPuts(t, id, kind, EntryKey(kind, k), value, accepts);
        PutLookup(t, id, EntryKey(kind, k).value, NewEntry(id, kind, EntryKey(kind, k).value, value));
      case CreateMap(kind, local, namesEntry) =>
        PartsOfId(kind, local);
        CreatedMapIsEmpty(t, id, kind, namesEntry, accepts);
        NewMapLookup(t, CreateMapAt(t, id, kind, namesEntry, accepts).1.id, kind);
      case DeleteMap(_, _) =>
        OldMapLookup(t, id);
      case DeleteEntry(kind, _, k) =>
        DropLookup(t, id, EntryKey(kind, k).value);
    }
  }

  lemma PutLookup(t: Table<QosMap>, id: NasId, key: nat, e: MapEntry)
    requires id in t.rows
    ensures forall i, k ::
              Lookup(PutEntry(t, id, key, e), i, k) == if i == id && k == key then Some(e) else Lookup(t, i, k)
  {}

  lemma NewMapLookup(t: Table<QosMap>, id: NasId, kind: MapType)
    requires id !in t.rows
    ensures forall i, k :: Lookup(Table(t.rows[id := QosMap(id, kind, map[])], t.inUse + {id}), i, k) == Lookup(t, i, k)
  {}

  lemma OldMapLookup(t: Table<QosMap>, id: NasId)
    requires id in t.rows && t.rows[id].entries == map[]
    ensures forall i, k :: Lookup(Table(t.rows - {id}, t.inUse - {id}), i, k) == Lookup(t, i, k)
  {}

  lemma DropLookup(t: Table<QosMap>, id: NasId, key: nat)
    requires id in t.rows
    ensures forall i, k :: Lookup(DropEntry(t, id, key), i, k) == if i == id && k == key then None else Lookup(t, i, k)
  {}

  lemma CreatedMapIsEmpty(t: Table<QosMap>, id: NasId, kind: MapType, namesEntry: bool, accepts: bool)
    requires MapsOk(t) && CreateMapAt(t, id, kind, namesEntry, accepts).1.Done?
    requires LocalPart(id) != 0 ==> TypePart(id) == Code(kind) && id == MapIdOf(kind, LocalPart(id))
    ensures var (u, outcome) := CreateMapAt(t, id, kind, namesEntry, accepts);
            && outcome.id !in t.rows
            && u == Table(t.rows[outcome.id := QosMap(outcome.id, kind, map[])], t.inUse + {outcome.id})
            && TypePart(outcome.id) == Code(kind) && LocalPart(outcome.id) != 0
            && outcome.id == MapIdOf(kind, LocalPart(outcome.id))
  {
    if LocalPart(id) == 0 {
      AllocationByType(t.inUse, kind);
    }
  }

  // ---- Reading one entry ----

  /** The matching entries in the order the table is walked. */
  function Scan(m: QosMap, order: seq<nat>, key: nat): seq<MapEntry>
    requires forall i :: 0 <= i < |order| ==> order[i] in m.entries
  {
    if order == [] then []
    else
      var rest := Scan(m, order[..|order| - 1], key);
      var e := m.entries[order[|order| - 1]];
      if e.key == key then rest + [e] else rest
  }

  /** Each key once. */
  ghost predicate IsWalk(m: QosMap, order: seq<nat>) {
    && (forall i :: 0 <= i < |order| ==> order[i] in m.entries)
    && (forall i, j :: 0 <= i < j < |order| ==> order[i] != order[j])
    && (forall key :: key in m.entries ==> key in order)
  }

  /** _fill_matching_map_entries: the walk, in whatever order the hash table gives. */
  method FillMatching(m: QosMap, order: seq<nat>, key: nat) returns (found: seq<MapEntry>)
    requires forall i :: 0 <= i < |order| ==> order[i] in m.entries
    ensures found == Scan(m, order, key)
  {
    found := [];
    for i := 0 to |order|
      invariant found == Scan(m, order[..i], key)
    {
      assert order[..i + 1][..i] == order[..i];
      if m.entries[order[i]].key == key {
        found := found + [m.entries[order[i]]];
      }
    }
    assert order[..|order|] == order;
  }

  /** The walk misses no matching entry and takes no other, whatever the table holds. */
  lemma {:induction false} ScanCollects(m: QosMap, order: seq<nat>, key: nat)
    requires forall i :: 0 <= i < |order| ==> order[i] in m.entries
    ensures forall e :: e in Scan(m, order, key) <==>
              e.key == key && exists i :: 0 <= i < |order| && m.entries[order[i]] == e
  {
    if order != [] {
      var front, last := order[..|order| - 1], order[|order| - 1];
      ScanCollects(m, front, key);
      assert forall i :: 0 <= i < |front| ==> front[i] == order[i];
      assert order == front + [last];
    }
  }

  lemma {:induction false} ScanFinds(id: NasId, m: QosMap, order: seq<nat>, key: nat)
    requires MapOk(id, m)
    requires forall i :: 0 <= i < |order| ==> order[i] in m.entries
    requires forall i, j :: 0 <= i < j < |order| ==> order[i] != order[j]
    ensures Scan(m, order, key) == if key in order then [m.entries[key]] else []
  {
    if order != [] {
      var front, last := order[..|order| - 1], order[|order| - 1];
      assert order == front + [last];
      ScanFinds(id, m, front, key);
      assert last !in front;
    }
  }

  /** In every reachable map the linear scan finds exactly what the hash lookup finds, in any walk order. */
  lemma ScanIsLookup(t: Table<QosMap>, id: NasId, order: seq<nat>, key: nat)
    requires MapsOk(t) && id in t.rows && IsWalk(t.rows[id], order)
    ensures Scan(t.rows[id], order, key) == match Lookup(t, id, key) case Some(e) => [e] case None => []
  {
    ScanFinds(id, t.rows[id], order, key);
  }

  // ---- Undo ----

  /**
   The inverse operation a rollback issues: a created object is deleted by the attributes it was
   created with, a deleted one is created again from its saved key and value.
   */
  function Inverse(t: Table<QosMap>, op: MapOp, outcome: Outcome): MapOp
    requires outcome.Done? && (op.DeleteMap? || op.DeleteEntry? ==> outcome.id in t.rows)
    requires op.DeleteEntry? ==>
               EntryKey(op.kind, op.key).Some? && EntryKey(op.kind, op.key).value in t.rows[outcome.id].entries
  {
    match op
    case CreateMap(kind, _, _) => DeleteMap(kind, LocalPart(outcome.id))
    case DeleteMap(kind, _) => CreateMap(t.rows[outcome.id].kind, LocalPart(outcome.id), false)
    case CreateEntry(kind, local, k, _) => DeleteEntry(kind, local, k)
    case DeleteEntry(kind, _, k) =>
      var e := t.rows[outcome.id].entries[EntryKey(kind, k).value];
      CreateEntry(e.kind, LocalPart(e.mapId), KeyData(e.kind, e.key),
                  if e.kind.PgToPfc? then None else Some(ValueIn(e.kind, e.values)))
  }

  function Undone(t: Table<QosMap>, op: MapOp, accepts: bool): Table<QosMap>
    requires Apply(t, op, accepts).1.Done?
  {
    var (u, outcome) := Apply(t, op, accepts);
    Apply(u, Inverse(t, op, outcome), true).0
  }

  /** A stored id is recovered from its type and local part. */
  lemma StoredIdEncodes(t: Table<QosMap>, id: NasId)
    requires MapsOk(t) && id in t.rows
    ensures MapIdOf(t.rows[id].kind, LocalPart(id)) == id
  {
    assert MapOk(id, t.rows[id]);
    Recompose(id);
  }

  lemma Recompose(id: nat)
    requires 0 < id <= 2048 && id % 128 != 0
    ensures (id / 128) % 32 * 128 + id % 128 % 128 == id
  {}

  /** The creation of an entry under a key that has one. */
  predicate Overwrites(t: Table<QosMap>, op: MapOp, accepts: bool)
    requires Apply(t, op, accepts).1.Done?
  {
    op.CreateEntry? && Lookup(t, Apply(t, op, accepts).1.id, EntryKey(op.kind, op.key).value).Some?
  }

  /**
   Undoing an operation restores the table exactly, with one exception: undoing the creation of an
   entry deletes it, so if the key already had an entry its earlier value is lost.
   */
  lemma UndoRestores(t: Table<QosMap>, op: MapOp, accepts: bool)
    requires MapsOk(t) && Apply(t, op, accepts).1.Done?
    ensures Undone(t, op, accepts) == t <==> !Overwrites(t, op, accepts)
  {
    match op {
      case CreateMap(kind, local, namesEntry) => UndoCreateMap(t, kind, local, namesEntry, accepts);
      case DeleteMap(kind, local) => UndoDeleteMap(t, kind, local, accepts);
      case CreateEntry(kind, local, k, value) => UndoCreateEntry(t, kind, local, k, value, accepts);
      case DeleteEntry(kind, local, k) => UndoDeleteEntry(t, kind, local, k, accepts);
    }
  }

  lemma UndoCreateMap(t: Table<QosMap>, kind: MapType, local: nat, namesEntry: bool, accepts: bool)
    requires MapsOk(t) && Apply(t, CreateMap(kind, local, namesEntry), accepts).1.Done?
    ensures Undone(t, CreateMap(kind, local, namesEntry), accepts) == t
  {
    var id := MapIdOf(kind, local);
    PartsOfId(kind, local);
    CreatedMapIsEmpty(t, id, kind, namesEntry, accepts);
    NewMapGone(t, CreateMapAt(t, id, kind, namesEntry, accepts).1.id, kind);
  }

  lemma NewMapGone(t: Table<QosMap>, id: NasId, kind: MapType)
    requires MapsOk(t) && id !in t.rows
    ensures DeleteMapAt(Table(t.rows[id := QosMap(id, kind, map[])], t.inUse + {id}), id, true) == (t, Done(id))
  {
    var u := Table(t.rows[id := QosMap(id, kind, map[])], t.inUse + {id});
    assert u.rows - {id} == t.rows && u.inUse - {id} == t.inUse;
  }

  lemma UndoDeleteMap(t: Table<QosMap>, kind: MapType, local: nat, accepts: bool)
    requires MapsOk(t) && Apply(t, DeleteMap(kind, local), accepts).1.Done?
    ensures Undone(t, DeleteMap(kind, local), accepts) == t
  {
    var id := MapIdOf(kind, local);
    StoredIdEncodes(t, id);
    OldMapBack(t, id);
  }

  lemma OldMapBack(t: Table<QosMap>, id: NasId)
    requires MapsOk(t) && id in t.rows && t.rows[id].entries == map[]
    ensures CreateMapAt(Table(t.rows - {id}, t.inUse - {id}), id, t.rows[id].kind, false, true) == (t, Done(id))
  {
    assert MapOk(id, t.rows[id]);
    var u := Table(t.rows - {id}, t.inUse - {id});
    assert t.rows[id] == QosMap(id, t.rows[id].kind, map[]);
    assert u.rows[id := t.rows[id]] == t.rows && u.inUse + {id} == t.inUse;
  }

  lemma UndoCreateEntry(t: Table<QosMap>, kind: MapType, local: nat, k: KeyAttrs, value: Option<nat>, accepts: bool)
    requires MapsOk(t) && Apply(t, CreateEntry(kind, local, k, value), accepts).1.Done?
    ensures Undone(t, CreateEntry(kind, local, k, value), accepts) == t <==>
            EntryKey(kind, k).value !in t.rows[MapIdOf(kind, local)].entries
  {
    var id, key := MapIdOf(kind, local), EntryKey(kind, k).value;
    EntryKeyIsOk(kind, k);
    CreateEntryPuts(t, id, kind, Some(key), value, accepts);
    var e := NewEntry(id, kind, key, value);
    assert DeleteEntryAt(PutEntry(t, id, key, e), id, Some(key), true).0 == DropEntry(PutEntry(t, id, key, e), id, key);
    PutThenDrop(t, id, key, e);
  }

  lemma PutThenDrop(t: Table<QosMap>, id: NasId, key: nat, e: MapEntry)
    requires id in t.rows
    ensures DropEntry(PutEntry(t, id, key, e), id, key) == t <==> key !in t.rows[id].entries
  {
    var back := DropEntry(PutEntry(t, id, key, e), id, key);
    assert key !in back.rows[id].entries;
    if key !in t.rows[id].entries {
      assert back.rows[id].entries == t.rows[id].entries;
      assert back.rows == t.rows;
    }
  }

  lemma DropThenPut(t: Table<QosMap>, id: NasId, key: nat)
    requires id in t.rows && key in t.rows[id].entries
    ensures PutEntry(DropEntry(t, id, key), id, key, t.rows[id].entries[key]) == t
  {
    var u := DropEntry(t, id, key);
    assert u.rows[id].entries[key := t.rows[id].entries[key]] == t.rows[id].entries;
    assert u.rows[id := t.rows[id]] == t.rows;
  }

  lemma UndoDeleteEntry(t: Table<QosMap>, kind: MapType, local: nat, k: KeyAttrs, accepts: bool)
    requires MapsOk(t) && Apply(t, DeleteEntry(kind, local, k), accepts).1.Done?
    ensures Undone(t, DeleteEntry(kind, local, k), accepts) == t
  {
    var id, key := MapIdOf(kind, local), EntryKey(kind, k).value;
    assert MapOk(id, t.rows[id]) && EntryOk(t.rows[id], key, t.rows[id].entries[key]);
    StoredIdEncodes(t, id);
    OldEntryBack(t, id, key);
  }

  lemma OldEntryBack(t: Table<QosMap>, id: NasId, key: nat)
    requires MapsOk(t) && id in t.rows && key in t.rows[id].entries
    ensures var e := t.rows[id].entries[key];
            var saved := if e.kind.PgToPfc? then None else Some(ValueIn(e.kind, e.values));
            CreateEntryAt(DropEntry(t, id, key), id, e.kind, Some(key), saved, true) == (t, Done(id))
  {
    var m, u := t.rows[id], DropEntry(t, id, key);
    var e := m.entries[key];
    assert MapOk(id, m) && EntryOk(m, key, e);
    var saved := if e.kind.PgToPfc? then None else Some(ValueIn(e.kind, e.values));
    assert NewEntry(id, e.kind, key, saved) == e;
    DropKeepsOk(t, id, key);
    CreateEntryPuts(u, id, e.kind, Some(key), saved, true);
    DropThenPut(t, id, key);
  }

  /** Creating over an existing entry, then rolling back: the entry is gone, not restored. */
  lemma OverwriteIsNotUndone()
    ensures exists t: Table<QosMap>, op: MapOp :: MapsOk(t) && Apply(t, op, true).1.Done? && Undone(t, op, true) != t
  {
    var t0: Table<QosMap> := Table(map[], {});
    var make := CreateMap(DscpToTc, 5, false);
    var t1 := Apply(t0, make, true).0;
    StepKeepsMapsOk(t0, make, true);
    var op := CreateEntry(DscpToTc, 5, KeyAttrs(Some(46), None), Some(3));
    var t2 := Apply(t1, op, true).0;
    StepKeepsMapsOk(t1, op, true);
    UndoRestores(t2, op, true);
  }

  // ---- Whole transactions ----

  /** Every operation succeeds. */
  predicate AllDone(t: Table<QosMap>, events: seq<Event>)
    decreases |events|
  {
    events == [] ||
    (var (next, outcome) := Apply(t, events[0].op, events[0].accepts);
     outcome.Done? && AllDone(next, events[1..]))
  }

  /** Some operation creates an entry over the one its key has at that point. */
  predicate SomeOverwrites(t: Table<QosMap>, events: seq<Event>)
    requires AllDone(t, events)
    decreases |events|
  {
    events != [] &&
    (Overwrites(t, events[0].op, events[0].accepts)
     || SomeOverwrites(Apply(t, events[0].op, events[0].accepts).0, events[1..]))
  }

  /** The inverse operations applied to u, that of the last operation first. */
  function UndoAll(t: Table<QosMap>, events: seq<Event>, u: Table<QosMap>): Table<QosMap>
    requires AllDone(t, events)
    decreases |events|
  {
    if events == [] then u
    else
      var (next, outcome) := Apply(t, events[0].op, events[0].accepts);
      Apply(UndoAll(next, events[1..], u), Inverse(t, events[0].op, outcome), true).0
  }

  /** Rolling back any sequence of successful operations that overwrites no entry, last first, restores the tables. */
  lemma {:induction false} TransactionUndone(t: Table<QosMap>, events: seq<Event>)
    requires MapsOk(t) && AllDone(t, events) && !SomeOverwrites(t, events)
    ensures UndoAll(t, events, RunMaps(t, events)) == t
    decreases |events|
  {
    if events != [] {
      var op, accepts := events[0].op, events[0].accepts;
      StepKeepsMapsOk(t, op, accepts);
      TransactionUndone(Apply(t, op, accepts).0, events[1..]);
      UndoRestores(t, op, accepts);
    }
  }
}
