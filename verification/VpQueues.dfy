/**
 The queues of a virtual port: the flat enumeration that creates them, the translation of queue maps
 back to flat numbers, and the parents they are given in advance.
 */
module VpQueues {
  import opened Wrappers
  import opened NasIds
  import opened OrderedKeys
  import opened QosRows
  import opened QosSwitches

  /** Queue numbers per port, and the level of the groups right above the queues. */
  datatype Shape = Shape(ucast: nat, total: nat, leaf: nat)

  /** nas_qos_port_queue_init_vp: the key of the queue of flat index idx. */
  function VpKey(port: nat, sh: Shape, idx: nat): Key {
    if idx < sh.ucast then Key(port, idx, UCAST) else Key(port, idx - sh.ucast, MULTICAST)
  }

  /** get_ndi_qid; the sum is one of 32-bit words. None is the error return. */
  function NdiQid(kind: nat, number: nat, sh: Shape): Option<nat> {
    if kind == ANYCAST || kind == UCAST then Some(number)
    else if kind == MULTICAST then Some((number + sh.ucast) % 0x1_0000_0000)
    else None
  }

  /** get_ndi_default_qid */
  function NdiDefaultQid(kind: nat, sh: Shape): Option<nat> {
    if kind == ANYCAST || kind == UCAST then Some(0)
    else if kind == MULTICAST then Some(sh.ucast)
    else None
  }

  /** The parent set in advance. */
  function VpParent(sh: Shape, key: Key): NasId {
    FormatSgId(key.port, sh.leaf, key.local)
  }

  ghost function VpKeys(port: nat, sh: Shape, n: nat): set<Key> {
    set i | 0 <= i < n :: VpKey(port, sh, i)
  }

  /** The first n groups created for the port. */
  ghost function VpGroups(port: nat, sh: Shape, n: nat): set<NasId> {
    set i | 0 <= i < n :: FormatSgId(port, sh.leaf, i)
  }

  /** The translation undoes the enumeration: flat index to type and number and back. */
  lemma TranslationUndoesEnumeration(port: nat, sh: Shape, idx: nat)
    requires idx < sh.total <= 0x1_0000_0000
    ensures NdiQid(VpKey(port, sh, idx).kind, VpKey(port, sh, idx).local, sh) == Some(idx)
  {}

  /** Multicast numbers are translated alike exactly when they agree as 32-bit words. */
  lemma MulticastTranslationWraps(a: nat, b: nat, sh: Shape)
    ensures NdiQid(MULTICAST, a, sh) == NdiQid(MULTICAST, b, sh) <==> a % 0x1_0000_0000 == b % 0x1_0000_0000
  {
    SumsAlike(a, b, sh.ucast);
  }

  lemma SumsAlike(a: nat, b: nat, n: nat)
    ensures (a + n) % 0x1_0000_0000 == (b + n) % 0x1_0000_0000 <==> a % 0x1_0000_0000 == b % 0x1_0000_0000
  {}

  /**
   And the enumeration undoes the translation, on exactly the keys that were enumerated: a key whose
   translation is a flat number below the total and enumerates back to the key is a queue of the port.
   */
  lemma EnumerationUndoesTranslation(port: nat, sh: Shape, kind: nat, number: nat)
    requires sh.total <= 0x1_0000_0000
    ensures (var q := NdiQid(kind, number, sh);
             q.Some? && q.value < sh.total && VpKey(port, sh, q.value) == Key(port, number, kind))
       <==> Key(port, number, kind) in VpKeys(port, sh, sh.total)
  {}

  lemma DefaultIsNumberZero(kind: nat, sh: Shape)
    requires sh.ucast < 0x1_0000_0000
    ensures NdiDefaultQid(kind, sh) == NdiQid(kind, 0, sh)
  {}

  /** Every parent set in advance is a group created for the port. */
  ghost predicate PresetAllThere(port: nat, sh: Shape) {
    forall idx :: 0 <= idx < sh.total ==> VpParent(sh, VpKey(port, sh, idx)) in VpGroups(port, sh, sh.ucast)
  }

  /**
   Every queue's parent is a group created for the port exactly when multicast queues do not
   outnumber unicast ones.
   */
  lemma ParentsExistIffMulticastFits(port: nat, sh: Shape)
    requires forall i: nat :: i < sh.ucast || i < sh.total ==> Packable(port, sh.leaf, i)
    ensures PresetAllThere(port, sh) <==> sh.total <= 2 * sh.ucast
  {
    if sh.total > 2 * sh.ucast {
      var idx := 2 * sh.ucast;
      assert VpKey(port, sh, idx) == Key(port, sh.ucast, MULTICAST);
      if VpParent(sh, VpKey(port, sh, idx)) in VpGroups(port, sh, sh.ucast) {
        var i :| 0 <= i < sh.ucast && FormatSgId(port, sh.leaf, i) == FormatSgId(port, sh.leaf, sh.ucast);
        SgIdMonotone(port, sh.leaf, i, sh.ucast);
        assert false;
      }
    }
  }

  lemma OneMoreKey(port: nat, sh: Shape, n: nat)
    ensures VpKey(port, sh, n) !in VpKeys(port, sh, n)
    ensures VpKeys(port, sh, n + 1) == VpKeys(port, sh, n) + {VpKey(port, sh, n)}
  {}

  /** How many of a port's first n queues are of a type. */
  lemma {:induction false} VpKeyCount(port: nat, sh: Shape, n: nat, kind: nat)
    requires kind == UCAST || kind == MULTICAST
    ensures |MatchingKind(VpKeys(port, sh, n), kind)|
         == if kind == UCAST then Min(n, sh.ucast) else n - Min(n, sh.ucast)
  {
    if n == 0 {
      assert MatchingKind(VpKeys(port, sh, 0), kind) == {};
    } else {
      VpKeyCount(port, sh, n - 1, kind);
      OneMoreKey(port, sh, n - 1);
      var keys, last := VpKeys(port, sh, n), VpKey(port, sh, n - 1);
      assert keys - {last} == VpKeys(port, sh, n - 1);
      MatchingWithout(keys, last, kind);
    }
  }
}
