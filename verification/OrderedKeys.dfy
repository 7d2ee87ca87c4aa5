/**
 The keys of the ordered tables (`std::map`) and their iteration order. A queue is keyed by
 (port, local number, type); a priority group by (port, local id), with the last part unused.
 An ordered table is a Dafny `map`; an iterator visits its keys in the one order that `IsOrderOf`
 allows for its key set.
 */
module OrderedKeys {
  datatype Key = Key(port: nat, local: nat, kind: nat)

  /** nas_qos_queue_key_t::operator< and nas_qos_priority_group_key_t::operator< */
  predicate Less(a: Key, b: Key) {
    if a.port != b.port then a.port < b.port
    else if a.local != b.local then a.local < b.local
    else a.kind < b.kind
  }

  /** `std::map` needs a strict total order. */
  lemma LessIsStrictTotalOrder(a: Key, b: Key, c: Key)
    ensures !Less(a, a)
    ensures Less(a, b) && Less(b, c) ==> Less(a, c)
    ensures Less(a, b) || Less(b, a) || a == b
    ensures !(Less(a, b) && Less(b, a))
  {}

  ghost predicate Sorted(s: seq<Key>) {
    forall i, j :: 0 <= i < j < |s| ==> Less(s[i], s[j])
  }

  predicate IsLeast(m: Key, keys: set<Key>) {
    m in keys && forall k :: k in keys && k != m ==> Less(m, k)
  }

  lemma {:induction false} LeastExists(keys: set<Key>)
    requires keys != {}
    ensures exists m :: IsLeast(m, keys)
  {
    var k :| k in keys;
    if keys == {k} {
      assert IsLeast(k, keys);
    } else {
      LeastExists(keys - {k});
      var m :| IsLeast(m, keys - {k});
      var least := if Less(k, m) then k else m;
      forall x | x in keys && x != least ensures Less(least, x) {
        if x != k {
          assert x in keys - {k};
        }
      }
      assert IsLeast(least, keys);
    }
  }

  function Least(keys: set<Key>): (m: Key)
    requires keys != {}
    ensures IsLeast(m, keys)
  {
    LeastExists(keys);
    var m :| IsLeast(m, keys);
    m
  }

  /** `order` lists exactly these keys, each once, in key order. */
  ghost predicate IsOrderOf(order: seq<Key>, keys: set<Key>) {
    Sorted(order) && forall k :: k in order <==> k in keys
  }

  function SortedKeys(keys: set<Key>): (s: seq<Key>)
    ensures IsOrderOf(s, keys)
    decreases keys
  {
    if keys == {} then []
    else
      var m := Least(keys);
      var rest := SortedKeys(keys - {m});
      assert forall k :: k in [m] + rest <==> k == m || k in rest;
      [m] + rest
  }

  /** The iterators of an ordered table, in visiting order. */
  method Iterate(keys: set<Key>) returns (order: seq<Key>)
    ensures IsOrderOf(order, keys)
  {
    order := SortedKeys(keys);
  }

  /** A key set has only one sorted listing. */
  lemma {:induction false} SortedIsUnique(s: seq<Key>, t: seq<Key>)
    requires Sorted(s) && Sorted(t)
    requires forall k :: k in s <==> k in t
    ensures s == t
  {
    assert s != [] ==> s[0] in s && s[0] in t;
    assert t != [] ==> t[0] in t && t[0] in s;
    if s != [] {
      assert s[0] == t[0];
      forall k ensures k in s[1..] <==> k in t[1..] {
        assert k in s <==> k == s[0] || k in s[1..];
        assert k in t <==> k == t[0] || k in t[1..];
      }
      SortedIsUnique(s[1..], t[1..]);
    }
  }

  /** The keys of one port. */
  function PortKeys(keys: set<Key>, port: nat): set<Key> {
    set k | k in keys && k.port == port
  }

  /** `lower_bound`: the first position whose key is not below the bound. */
  ghost predicate IsLowerBound(s: seq<Key>, bound: Key, i: nat) {
    && i <= |s|
    && (forall j :: 0 <= j < i ==> Less(s[j], bound))
    && (i < |s| ==> !Less(s[i], bound))
  }

  method LowerBound(s: seq<Key>, bound: Key) returns (i: nat)
    ensures IsLowerBound(s, bound, i)
  {
    i := 0;
    while i < |s| && Less(s[i], bound)
      invariant i <= |s|
      invariant forall j :: 0 <= j < i ==> Less(s[j], bound)
    {
      i := i + 1;
    }
  }

  /**
   Where a range scan of `port` runs: it starts at the lower bound of (port, 0, 0) and, as long as
   no larger port has been met, every key it visits belongs to the port.
   */
  lemma ScanStaysOnPort(order: seq<Key>, port: nat, lo: nat, i: nat)
    requires Sorted(order) && IsLowerBound(order, Key(port, 0, 0), lo)
    requires lo <= i < |order|
    ensures order[i].port >= port
    ensures order[i].port > port ==> forall j :: i <= j < |order| ==> order[j].port > port
  {}

  /** A finished scan has visited exactly the keys of the port, in key order. */
  lemma ScanIsFilter(keys: set<Key>, order: seq<Key>, port: nat, lo: nat, hi: nat)
    requires IsOrderOf(order, keys) && IsLowerBound(order, Key(port, 0, 0), lo)
    requires lo <= hi <= |order|
    requires forall j :: lo <= j < hi ==> order[j].port == port
    requires forall j :: hi <= j < |order| ==> order[j].port > port
    ensures IsOrderOf(order[lo..hi], PortKeys(keys, port))
  {}

  /** A key set and its order have the same size. */
  lemma {:induction false} OrderLength(order: seq<Key>, keys: set<Key>)
    requires IsOrderOf(order, keys)
    ensures |order| == |keys|
  {
    if order != [] {
      assert order[0] in order;
      forall k ensures k in order[1..] <==> k in keys - {order[0]} {
        assert k in order <==> k == order[0] || k in order[1..];
      }
      OrderLength(order[1..], keys - {order[0]});
    } else {
      assert keys == {};
    }
  }
}
