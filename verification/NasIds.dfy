/**
 The id layouts of inc/opx/nas_qos_common.h: scheduler-group ids, queue ids, map ids and the
 composite map-entry keys, with the id-generator masks of inc/opx/nas_qos_switch.h.
 */
module NasIds {
  import opened Bits

  type NasId = nat

  const QUEUE_TYPE_MASK: nat := 0x1000_0000_0000_0000
  const SG_TYPE_MASK: nat := 0x2000_0000_0000_0000
  const SG_AUTO_FORMED: nat := 0x0100_0000_0000_0000
  const SG_LEVEL_FIELD: nat := 0x00FF_0000_0000_0000
  const SG_INDEX_FIELD: nat := 0x0000_FFFF_0000_0000
  const SG_PORT_FIELD: nat := 0xFFFF_FFFF
  const ALL_ONES_64: nat := 0xFFFF_FFFF_FFFF_FFFF

  /** NAS_QOS_FORMAT_SG_ID */
  function FormatSgId(port: nat, level: nat, index: nat): NasId {
    Or(Or(Or(Or(SG_TYPE_MASK, SG_AUTO_FORMED), Shl64(level, 48)), Shl64(index, 32)), Shl64(port, 0))
  }

  function SgLevel(id: NasId): nat { Shr(And(id, SG_LEVEL_FIELD), 48) }

  function SgIndex(id: NasId): nat { Shr(And(id, SG_INDEX_FIELD), 32) }

  function SgPort(id: NasId): nat { Shr(And(id, SG_PORT_FIELD), 0) }

  predicate IsAutoFormed(id: NasId) { And(id, SG_AUTO_FORMED) != 0 }

  predicate IsQueueId(id: NasId) { And(id, QUEUE_TYPE_MASK) != 0 }

  /** alloc_queue_id and alloc_scheduler_group_id: a generator value tagged with its type. */
  function QueueIdOf(raw: nat): NasId { Or(raw, QUEUE_TYPE_MASK) }

  function SgIdOf(raw: nat): NasId { Or(raw, SG_TYPE_MASK) }

  /** What release_queue_id and release_scheduler_group_id hand back to the generator. */
  function QueueRawOf(id: NasId): nat { And(id, ALL_ONES_64 - QUEUE_TYPE_MASK) }

  function SgRawOf(id: NasId): nat { And(id, ALL_ONES_64 - SG_TYPE_MASK) }

  /** Field ranges for which the packed layout has room. */
  predicate Packable(port: nat, level: nat, index: nat) {
    port < 0x1_0000_0000 && level < 256 && index < 0x1_0000
  }

  lemma SgIdValue(port: nat, level: nat, index: nat)
    requires Packable(port, level, index)
    ensures FormatSgId(port, level, index)
         == 0x2100_0000_0000_0000 + level * 0x1_0000_0000_0000 + index * 0x1_0000_0000 + port
  {
    TypeTags();
    ShiftedFields(port, level, index);
    OrFields(Or(SG_TYPE_MASK, SG_AUTO_FORMED), Shl64(level, 48), Shl64(index, 32), port, level, index);
  }

  lemma OrFields(tags: nat, l: nat, x: nat, port: nat, level: nat, index: nat)
    requires Packable(port, level, index)
    requires tags == 0x2100_0000_0000_0000 && l == level * 0x1_0000_0000_0000 && x == index * 0x1_0000_0000
    ensures Or(Or(Or(tags, l), x), port) == tags + l + x + port
  {
    OrField(tags, l, 56, 0x21);
    OrField(tags + l, x, 48, 0x2100 + level);
    OrField(tags + l + x, port, 32, 0x2100_0000 + level * 0x1_0000 + index);
  }

  lemma TypeTags()
    ensures Or(SG_TYPE_MASK, SG_AUTO_FORMED) == 0x2100_0000_0000_0000
  {
    Pow2Values();
    OrSplit(SG_TYPE_MASK, SG_AUTO_FORMED, 0x20, 0, 0x01, 0, 56);
    assert Or(0x20, 0x01) == 0x21;
  }

  lemma ShiftedFields(port: nat, level: nat, index: nat)
    requires Packable(port, level, index)
    ensures Shl64(level, 48) == level * 0x1_0000_0000_0000
    ensures Shl64(index, 32) == index * 0x1_0000_0000
    ensures Shl64(port, 0) == port
  {
    Pow2Values();
    ShlExact(level, 48, 0x1_0000_0000_0000);
    ShlExact(index, 32, 0x1_0000_0000);
    ShlExact(port, 0, 1);
  }

  lemma OrField(word: nat, field: nat, k: nat, high: nat)
    requires k in {32, 48, 56}
    requires field < (if k == 32 then 0x1_0000_0000 else if k == 48 then 0x1_0000_0000_0000 else 0x100_0000_0000_0000)
    requires word == high *
             (if k == 32 then 0x1_0000_0000 else if k == 48 then 0x1_0000_0000_0000 else 0x100_0000_0000_0000)
    ensures Or(word, field) == word + field
  {
    Pow2Values();
    OrDisjoint(high, field, k);
  }

  /** The packed sum taken apart again by division, tags included. */
  lemma FieldValues(id: NasId)
    ensures SgLevel(id) == (id / 0x1_0000_0000_0000) % 256
    ensures SgIndex(id) == (id / 0x1_0000_0000) % 0x1_0000
    ensures SgPort(id) == id % 0x1_0000_0000
  {
    Pow2Values();
    MaskedField(id, SG_LEVEL_FIELD, 8, 0x100, 48, 0x1_0000_0000_0000);
    MaskedField(id, SG_INDEX_FIELD, 16, 0x1_0000, 32, 0x1_0000_0000);
    MaskedField(id, SG_PORT_FIELD, 32, 0x1_0000_0000, 0, 1);
  }

  lemma TagValues(id: NasId)
    ensures IsAutoFormed(id) <==> (id / 0x100_0000_0000_0000) % 2 == 1
    ensures IsQueueId(id) <==> (id / 0x1000_0000_0000_0000) % 2 == 1
  {
    Pow2Values();
    MaskedField(id, SG_AUTO_FORMED, 1, 2, 56, 0x100_0000_0000_0000);
    MaskedField(id, QUEUE_TYPE_MASK, 1, 2, 60, 0x1000_0000_0000_0000);
  }

  /** The packed sum taken apart again, tags included. */
  lemma PackedSum(id: NasId, port: nat, level: nat, index: nat)
    requires Packable(port, level, index)
    requires id == 0x2100_0000_0000_0000 + level * 0x1_0000_0000_0000 + index * 0x1_0000_0000 + port
    ensures SgPort(id) == port && SgLevel(id) == level && SgIndex(id) == index
    ensures IsAutoFormed(id) && !IsQueueId(id)
  {
    FieldValues(id);
    TagValues(id);
    PackedSumDivisions(id, port, level, index);
  }

  lemma PackedSumDivisions(id: NasId, port: nat, level: nat, index: nat)
    requires Packable(port, level, index)
    requires id == 0x2100_0000_0000_0000 + level * 0x1_0000_0000_0000 + index * 0x1_0000_0000 + port
    ensures (id / 0x1_0000_0000_0000) % 256 == level
    ensures (id / 0x1_0000_0000) % 0x1_0000 == index
    ensures id % 0x1_0000_0000 == port
    ensures (id / 0x100_0000_0000_0000) % 2 == 1
    ensures (id / 0x1000_0000_0000_0000) % 2 == 0
  {}

  lemma FieldBounds(id: NasId)
    ensures SgPort(id) < 0x1_0000_0000 && SgLevel(id) < 256 && SgIndex(id) < 0x1_0000
  {
    FieldValues(id);
  }

  /** Unpacking gives back the three packed fields exactly when each fits its bit field. */
  lemma SgIdRoundTrip(port: nat, level: nat, index: nat)
    ensures var id := FormatSgId(port, level, index);
            (SgPort(id) == port && SgLevel(id) == level && SgIndex(id) == index) <==> Packable(port, level, index)
  {
    var id := FormatSgId(port, level, index);
    FieldBounds(id);
    if Packable(port, level, index) {
      SgIdValue(port, level, index);
      PackedSum(id, port, level, index);
    }
  }

  lemma SgIdInjective(port: nat, level: nat, index: nat, port': nat, level': nat, index': nat)
    requires Packable(port, level, index) && Packable(port', level', index')
    requires FormatSgId(port, level, index) == FormatSgId(port', level', index')
    ensures port == port' && level == level' && index == index'
  {
    SgIdRoundTrip(port, level, index);
    SgIdRoundTrip(port', level', index');
  }

  /** Ids of one port and level are ordered as their local indices are. */
  lemma SgIdMonotone(port: nat, level: nat, index: nat, index': nat)
    requires Packable(port, level, index) && Packable(port, level, index')
    ensures FormatSgId(port, level, index) < FormatSgId(port, level, index') <==> index < index'
  {
    SgIdValue(port, level, index);
    SgIdValue(port, level, index');
  }

  lemma GeneratedIdValues(raw: nat)
    requires raw <= 0xFFFF
    ensures QueueIdOf(raw) == 0x1000_0000_0000_0000 + raw
    ensures SgIdOf(raw) == 0x2000_0000_0000_0000 + raw
  {
    Pow2Values();
    OrCommutes(raw, QUEUE_TYPE_MASK);
    OrCommutes(raw, SG_TYPE_MASK);
    OrDisjoint(1, raw, 60);
    OrDisjoint(1, raw, 61);
  }

  lemma {:induction false} OrCommutes(a: nat, b: nat)
    ensures Or(a, b) == Or(b, a)
  {
    if a > 0 && b > 0 {
      OrCommutes(a / 2, b / 2);
    }
  }

  /**
   The three kinds of id never meet, the is-queue test separates them, and only formed ids
   carry the auto-formed tag.
   */
  lemma IdKindsDisjoint(port: nat, level: nat, index: nat, q: nat, g: nat)
    requires Packable(port, level, index) && q <= 0xFFFF && g <= 0xFFFF
    ensures FormatSgId(port, level, index) != QueueIdOf(q)
    ensures FormatSgId(port, level, index) != SgIdOf(g)
    ensures QueueIdOf(q) != SgIdOf(g)
    ensures IsQueueId(QueueIdOf(q)) && !IsQueueId(SgIdOf(g)) && !IsQueueId(FormatSgId(port, level, index))
    ensures IsAutoFormed(FormatSgId(port, level, index)) && !IsAutoFormed(SgIdOf(g)) && !IsAutoFormed(QueueIdOf(q))
  {
    FormedIdTags(port, level, index);
    GeneratedIdTags(q);
    GeneratedIdTags(g);
  }

  lemma FormedIdTags(port: nat, level: nat, index: nat)
    requires Packable(port, level, index)
    ensures IsAutoFormed(FormatSgId(port, level, index)) && !IsQueueId(FormatSgId(port, level, index))
  {
    SgIdValue(port, level, index);
    PackedSum(FormatSgId(port, level, index), port, level, index);
  }

  lemma GeneratedIdTags(raw: nat)
    requires raw <= 0xFFFF
    ensures IsQueueId(QueueIdOf(raw)) && !IsAutoFormed(QueueIdOf(raw))
    ensures !IsQueueId(SgIdOf(raw)) && !IsAutoFormed(SgIdOf(raw))
  {
    GeneratedIdValues(raw);
    TagsOfSum(QueueIdOf(raw), raw, true);
    TagsOfSum(SgIdOf(raw), raw, false);
  }

  lemma TagsOfSum(id: NasId, raw: nat, queue: bool)
    requires raw <= 0xFFFF
    requires id == raw + (if queue then 0x1000_0000_0000_0000 else 0x2000_0000_0000_0000)
    ensures IsQueueId(id) <==> queue
    ensures !IsAutoFormed(id)
  {
    TagValues(id);
    assert id / 0x100_0000_0000_0000 == (if queue then 0x10 else 0x20);
    assert id / 0x1000_0000_0000_0000 == (if queue then 1 else 2);
  }

  /** Releasing a generated id names the very value the generator handed out. */
  lemma ReleaseInvertsAlloc(raw: nat)
    requires raw <= 0xFFFF
    ensures QueueRawOf(QueueIdOf(raw)) == raw && SgRawOf(SgIdOf(raw)) == raw
  {
    GeneratedIdValues(raw);
    assert QueueRawOf(QueueIdOf(raw)) == raw by {
      Pow2Values();
      AndKeepsLow(1, raw, 14, 60);
      assert And(1, 14) == 0;
    }
    assert SgRawOf(SgIdOf(raw)) == raw by {
      Pow2Values();
      AndKeepsLow(1, raw, 6, 61);
      assert And(1, 6) == 0;
    }
  }

  /** Releasing an auto-formed id names a value no generator can have handed out. */
  lemma ReleaseAutoFormed(port: nat, level: nat, index: nat)
    requires Packable(port, level, index)
    ensures SgRawOf(FormatSgId(port, level, index)) > 0xFFFF
  {
    Pow2Values();
    SgIdValue(port, level, index);
    var low := 0x0100_0000_0000_0000 + level * 0x1_0000_0000_0000 + index * 0x1_0000_0000 + port;
    AndKeepsLow(1, low, 6, 61);
    assert And(1, 6) == 0;
  }

  // ---- Map ids: map type in bits 7..11, local id in bits 0..6 ----

  const MAX_MAP_ID_PER_TYPE: nat := 127
  const MAP_ID_MASK: nat := 0x7F
  const MAP_TYPE_MASK: nat := 0x1F * 0x80

  /** ENCODE_LOCAL_MAP_ID_AND_TYPE */
  function EncodeMapId(local: nat, mapType: nat): NasId {
    if local == 0 then 0 else Or(Shl64(mapType, 7), And(local, MAP_ID_MASK))
  }

  function LocalMapId(id: NasId): nat { And(id, MAP_ID_MASK) }

  function LocalMapType(id: NasId): nat { Shr(And(id, MAP_TYPE_MASK), 7) }

  lemma MapIdValue(local: nat, mapType: nat)
    requires local > 0 && mapType < 32
    ensures EncodeMapId(local, mapType) == mapType * 128 + local % 128
  {
    Pow2Values();
    MaskedField(local, MAP_ID_MASK, 7, 0x80, 0, 1);
    ShlExact(mapType, 7, 0x80);
    OrLow(mapType * 128, local % 128, mapType);
  }

  lemma OrLow(word: nat, low: nat, high: nat)
    requires low < 128 && word == high * 128
    ensures Or(word, low) == word + low
  {
    Pow2Values();
    OrDisjoint(high, low, 7);
  }

  lemma MapFieldValues(id: NasId)
    ensures LocalMapId(id) == id % 128
    ensures LocalMapType(id) == (id / 128) % 32
  {
    Pow2Values();
    assert Pow2(5) == 32;
    MaskedField(id, MAP_ID_MASK, 7, 0x80, 0, 1);
    MaskedField(id, MAP_TYPE_MASK, 5, 32, 7, 0x80);
  }

  /**
   For a real map type, a non-zero local id is recovered exactly when it fits seven bits:
   a caller's local id of 128 or more is silently reduced modulo 128.
   */
  lemma MapIdRoundTrip(local: nat, mapType: nat)
    requires local > 0 && mapType < 32
    ensures LocalMapType(EncodeMapId(local, mapType)) == mapType
    ensures LocalMapId(EncodeMapId(local, mapType)) == local <==> local <= 127
    ensures mapType < 16 ==> EncodeMapId(local, mapType) < 2048
  {
    var id, low := EncodeMapId(local, mapType), local % 128;
    assert id == mapType * 128 + low by {
      MapIdValue(local, mapType);
    }
    MapSum(id, low, mapType);
    LowBits(local);
  }

  lemma LowBits(n: nat)
    ensures n % 128 < 128 && (n % 128 == n <==> n <= 127)
  {}

  lemma MapSum(id: NasId, low: nat, mapType: nat)
    requires low < 128 && mapType < 32 && id == mapType * 128 + low
    ensures LocalMapId(id) == low && LocalMapType(id) == mapType
  {
    MapFieldValues(id);
    assert id % 128 == low && (id / 128) % 32 == mapType;
  }

  // ---- Composite map-entry keys: two halves of sixteen bits in a 32-bit word ----

  /** MAKE_KEY, stored into a 32-bit unsigned field. */
  function MakeKey(key1: nat, key2: nat): nat {
    Or(Shl64(key2, 16) % 0x1_0000_0000, key1)
  }

  function Key1(key: nat): nat { And(key, 0xFFFF) }

  function Key2(key: nat): nat { And(Shr(key, 16), 0xFFFF) }

  /** The halves come back exactly when each fits sixteen bits. */
  lemma CompositeKeyRoundTrip(key1: nat, key2: nat)
    ensures (Key1(MakeKey(key1, key2)) == key1 && Key2(MakeKey(key1, key2)) == key2)
       <==> (key1 < 0x1_0000 && key2 < 0x1_0000)
  {
    var key := MakeKey(key1, key2);
    KeyHalves(key);
    if key1 < 0x1_0000 && key2 < 0x1_0000 {
      KeyValue(key1, key2);
      KeySum(key1, key2);
    }
  }

  lemma KeyHalves(key: nat)
    ensures Key1(key) == key % 0x1_0000 && Key2(key) == (key / 0x1_0000) % 0x1_0000
  {
    Pow2Values();
    MaskedField(key, 0xFFFF, 16, 0x1_0000, 0, 1);
    MaskedField(Shr(key, 16), 0xFFFF, 16, 0x1_0000, 0, 1);
  }

  lemma KeyValue(key1: nat, key2: nat)
    requires key1 < 0x1_0000 && key2 < 0x1_0000
    ensures MakeKey(key1, key2) == key2 * 0x1_0000 + key1
  {
    assert Shl64(key2, 16) % 0x1_0000_0000 == key2 * 0x1_0000 by {
      Pow2Values();
      ShlExact(key2, 16, 0x1_0000);
    }
    OrLow16(key2 * 0x1_0000, key1, key2);
  }

  lemma HighPart(n: nat)
    ensures (n * 0x1_0000) % 0x1_0000_0000 == (n % 0x1_0000) * 0x1_0000
  {}

  lemma ShiftedHalf(n: nat)
    requires n < 0x1_0000_0000
    ensures Shl64(n, 16) == n * 0x1_0000
  {
    Pow2Values();
    ShlExact(n, 16, 0x1_0000);
  }

  /** The truncated shift keeps only the low sixteen bits of the second half. */
  lemma TruncatedShift(n: nat)
    requires n < 0x1_0000_0000
    ensures Shl64(n, 16) % 0x1_0000_0000 == Shl64(n % 0x1_0000, 16) % 0x1_0000_0000
  {
    var low := n % 0x1_0000;
    HighPart(n);
    ShiftedHalf(n);
    ShiftedHalf(low);
    FitsWord(low);
  }

  lemma FitsWord(n: nat)
    requires n < 0x1_0000
    ensures (n * 0x1_0000) % 0x1_0000_0000 == n * 0x1_0000
  {}

  /** A 32-bit second half is cut to its low sixteen bits. */
  lemma TruncatedKey(key1: nat, key2: nat)
    requires key2 < 0x1_0000_0000
    ensures MakeKey(key1, key2) == MakeKey(key1, key2 % 0x1_0000)
  {
    TruncatedShift(key2);
  }

  lemma OrLow16(word: nat, low: nat, high: nat)
    requires low < 0x1_0000 && word == high * 0x1_0000
    ensures Or(word, low) == word + low
  {
    Pow2Values();
    OrDisjoint(high, low, 16);
  }

  lemma KeySum(key1: nat, key2: nat)
    requires key1 < 0x1_0000 && key2 < 0x1_0000
    ensures (key2 * 0x1_0000 + key1) % 0x1_0000 == key1
    ensures ((key2 * 0x1_0000 + key1) / 0x1_0000) % 0x1_0000 == key2
  {}

  lemma CompositeKeyInjective(a1: nat, a2: nat, b1: nat, b2: nat)
    requires a1 < 0x1_0000 && a2 < 0x1_0000 && b1 < 0x1_0000 && b2 < 0x1_0000
    requires MakeKey(a1, a2) == MakeKey(b1, b2)
    ensures a1 == b1 && a2 == b2
  {
    CompositeKeyRoundTrip(a1, a2);
    CompositeKeyRoundTrip(b1, b2);
  }
}
