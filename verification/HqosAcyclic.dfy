/** No group is above itself: following parents always ends at a root. */
module HqosAcyclic {
  import opened Wrappers
  import opened NasIds
  import opened IdGenerator
  import opened OrderedKeys
  import opened QosRows
  import opened QosSwitches
  import opened HqosForest
  import opened HqosSteps

  type SgTable = map<NasId, SchedGroup>

  /** The parent of a hardware-backed group; 0 for anything else. */
  function ParentOf(sgs: SgTable, s: NasId): NasId {
    if s in sgs && sgs[s].created then sgs[s].parent else 0
  }

  /** The node n levels above s. */
  function Up(sgs: SgTable, s: NasId, n: nat): NasId
    decreases n
  {
    if n == 0 then s else Up(sgs, ParentOf(sgs, s), n - 1)
  }

  ghost predicate ReachesRoot(sgs: SgTable, s: NasId) {
    exists n: nat :: Up(sgs, s, n) == 0
  }

  ghost predicate Rooted(sgs: SgTable) {
    forall s :: s in sgs ==> ReachesRoot(sgs, s)
  }

  /** p is the group itself or lies below it. */
  ghost predicate AtOrBelow(sgs: SgTable, p: NasId, id: NasId) {
    exists n: nat :: Up(sgs, p, n) == id
  }

  lemma {:induction false} UpStep(sgs: SgTable, s: NasId, n: nat)
    ensures Up(sgs, s, n + 1) == ParentOf(sgs, Up(sgs, s, n))
    decreases n
  {
    if n > 0 {
      UpStep(sgs, ParentOf(sgs, s), n - 1);
    }
  }

  lemma {:induction false} UpFromRoot(sgs: SgTable, n: nat)
    requires 0 !in sgs
    ensures Up(sgs, 0, n) == 0
    decreases n
  {
    if n > 0 {
      UpFromRoot(sgs, n - 1);
    }
  }

  lemma {:induction false} UpAdds(sgs: SgTable, s: NasId, m: nat, n: nat)
    ensures Up(sgs, s, m + n) == Up(sgs, Up(sgs, s, m), n)
    decreases m
  {
    if m > 0 {
      UpAdds(sgs, ParentOf(sgs, s), m - 1, n);
    }
  }

  /** A group that reaches a root is not above itself. */
  lemma {:induction false} NotAboveItself(sgs: SgTable, s: NasId, n: nat)
    requires 0 !in sgs && s in sgs && ReachesRoot(sgs, s) && n > 0
    ensures Up(sgs, s, n) != s
  {
    if Up(sgs, s, n) == s {
      var m: nat :| Up(sgs, s, m) == 0;
      Cycles(sgs, s, n, m);
      UpAdds(sgs, s, m, n * m - m);
      UpFromRoot(sgs, n * m - m);
      assert false;
    }
  }

  lemma {:induction false} Cycles(sgs: SgTable, s: NasId, n: nat, k: nat)
    requires Up(sgs, s, n) == s && n > 0
    ensures n * k >= k && Up(sgs, s, n * k) == s
    decreases k
  {
    if k > 0 {
      Cycles(sgs, s, n, k - 1);
      assert n * k == n + n * (k - 1);
      UpAdds(sgs, s, n, n * (k - 1));
    }
  }

  // ---- Redirecting one parent ----

  /** b is a up to the parent of one node. */
  ghost predicate Redirected(a: SgTable, b: SgTable, id: NasId) {
    && id != 0 && 0 !in a && 0 !in b
    && forall x :: x != id ==> ParentOf(b, x) == ParentOf(a, x)
  }

  /** A path that does not leave id is the same in both. */
  lemma {:induction false} SamePath(a: SgTable, b: SgTable, id: NasId, s: NasId, n: nat)
    requires Redirected(a, b, id) && forall k: nat :: k < n ==> Up(a, s, k) != id
    ensures Up(b, s, n) == Up(a, s, n)
    decreases n
  {
    if n > 0 {
      assert Up(a, s, 0) != id;
      forall k: nat | k < n - 1 ensures Up(a, ParentOf(a, s), k) != id {
        assert Up(a, s, k + 1) != id;
      }
      SamePath(a, b, id, ParentOf(a, s), n - 1);
    }
  }

  /** A path to id, cut where it first meets id. */
  lemma {:induction false} FirstMeeting(a: SgTable, s: NasId, id: NasId, n: nat) returns (k: nat)
    requires Up(a, s, n) == id
    ensures k <= n && Up(a, s, k) == id && forall j: nat :: j < k ==> Up(a, s, j) != id
  {
    k := 0;
    while Up(a, s, k) != id
      invariant k <= n && forall j: nat :: j < k ==> Up(a, s, j) != id
      decreases n - k
    {
      k := k + 1;
    }
  }

  /** From p, which never meets id, the root is reached as before. */
  lemma RootWithoutId(a: SgTable, b: SgTable, id: NasId, p: NasId)
    requires Redirected(a, b, id) && ReachesRoot(a, p) && !AtOrBelow(a, p, id)
    ensures ReachesRoot(b, p)
  {
    var n: nat :| Up(a, p, n) == 0;
    SamePath(a, b, id, p, n);
  }

  /** The redirected node reaches a root unless its new parent is itself or below it. */
  lemma RedirectedRoot(a: SgTable, b: SgTable, id: NasId)
    requires Redirected(a, b, id) && ReachesRoot(a, ParentOf(b, id)) && !AtOrBelow(a, ParentOf(b, id), id)
    ensures ReachesRoot(b, id)
  {
    RootWithoutId(a, b, id, ParentOf(b, id));
    var n: nat :| Up(b, ParentOf(b, id), n) == 0;
    assert Up(b, id, n + 1) == 0;
  }

  lemma OthersReachRoot(a: SgTable, b: SgTable, id: NasId, s: NasId)
    requires Redirected(a, b, id) && ReachesRoot(a, s) && ReachesRoot(b, id)
    ensures ReachesRoot(b, s)
  {
    if AtOrBelow(a, s, id) {
      var n: nat :| Up(a, s, n) == id;
      var k := FirstMeeting(a, s, id, n);
      SamePath(a, b, id, s, k);
      var m: nat :| Up(b, id, m) == 0;
      UpAdds(b, s, k, m);
    } else {
      RootWithoutId(a, b, id, s);
    }
  }

  /** If the new parent lies below, id goes round in a circle. */
  lemma RedirectedCycle(a: SgTable, b: SgTable, id: NasId)
    requires Redirected(a, b, id) && AtOrBelow(a, ParentOf(b, id), id)
    ensures id in b && !ReachesRoot(b, id)
  {
    var p := ParentOf(b, id);
    var n: nat :| Up(a, p, n) == id;
    var k := FirstMeeting(a, p, id, n);
    SamePath(a, b, id, p, k);
    assert Up(b, id, k + 1) == id;
    if p == 0 {
      UpFromRoot(a, n);
      assert false;
    }
    if ReachesRoot(b, id) {
      NotAboveItself(b, id, k + 1);
    }
  }

  /** Redirecting one parent keeps every group rooted exactly when the new parent is not the node or below it. */
  lemma RedirectKeepsRooted(a: SgTable, b: SgTable, id: NasId)
    requires Redirected(a, b, id) && Rooted(a) && ReachesRoot(a, ParentOf(b, id))
    requires forall s :: s in b && s != id ==> s in a
    ensures AtOrBelow(a, ParentOf(b, id), id) ==> !Rooted(b)
    ensures !AtOrBelow(a, ParentOf(b, id), id) ==> Rooted(b) && ReachesRoot(b, id)
  {
    if AtOrBelow(a, ParentOf(b, id), id) {
      RedirectedCycle(a, b, id);
    } else {
      RedirectedRoot(a, b, id);
      forall s | s in b && s != id ensures ReachesRoot(b, s) {
        OthersReachRoot(a, b, id, s);
      }
    }
  }

  /** Tables with the same parents are rooted alike. */
  lemma SameParentsRooted(a: SgTable, b: SgTable)
    requires forall s :: ParentOf(b, s) == ParentOf(a, s)
    requires b.Keys <= a.Keys && Rooted(a)
    ensures Rooted(b)
  {
    forall s | s in b ensures ReachesRoot(b, s) {
      var n: nat :| Up(a, s, n) == 0;
      SameUp(a, b, s, n);
    }
  }

  lemma {:induction false} SameUp(a: SgTable, b: SgTable, s: NasId, n: nat)
    requires forall s :: ParentOf(b, s) == ParentOf(a, s)
    ensures Up(b, s, n) == Up(a, s, n)
    decreases n
  {
    if n > 0 {
      SameUp(a, b, ParentOf(a, s), n - 1);
    }
  }

  lemma ResolvedReachesRoot(sgs: SgTable, p: NasId)
    requires Rooted(sgs) && Resolves(sgs, p)
    ensures ReachesRoot(sgs, p)
  {
    if p == 0 {
      assert Up(sgs, 0, 0) == 0;
    }
  }

  // ---- The operations ----

  /**
   A SET that keeps the tree well linked keeps it acyclic exactly when the parent it stores is not
   below the group.
   */
  lemma SetSgRootedExact(t: Tree, virt: set<nat>, id: NasId, r: SgRequest, o: Outside)
    requires WellLinked(t, virt) && Rooted(t.sgs)
    requires SetStored(t, virt, id, r, o) && t.sgs[id].created && !SetBreaksLinks(t, virt, id, r, o)
    ensures Rooted(SetSg(t, virt, id, r, o).sgs) <==> !AtOrBelow(t.sgs, Parsed(t.sgs[id], r).parent, id)
  {
    var u, next := SetSg(t, virt, id, r, o), Parsed(t.sgs[id], r);
    SetSgPorts(t, virt, id, r, o);
    forall x | x != id ensures ParentOf(u.sgs, x) == ParentOf(t.sgs, x) {
      if x in t.sgs {
        assert u.sgs[x].(children := t.sgs[x].children) == t.sgs[x];
      }
    }
    assert Resolves(t.sgs, next.parent);
    ResolvedReachesRoot(t.sgs, next.parent);
    RedirectKeepsRooted(t.sgs, u.sgs, id);
  }

  /** A SET of a group that is not hardware-backed, or one that stores nothing, changes no parent that counts. */
  lemma OtherSetRooted(t: Tree, virt: set<nat>, id: NasId, r: SgRequest, o: Outside)
    requires Rooted(t.sgs) && !(SetStored(t, virt, id, r, o) && t.sgs[id].created)
    ensures Rooted(SetSg(t, virt, id, r, o).sgs)
  {
    var u := SetSg(t, virt, id, r, o);
    if SetStored(t, virt, id, r, o) {
      SetSgPorts(t, virt, id, r, o);
      forall x ensures ParentOf(u.sgs, x) == ParentOf(t.sgs, x) {
        if x in t.sgs && x != id {
          assert u.sgs[x].(children := t.sgs[x].children) == t.sgs[x];
        }
      }
      SameParentsRooted(t.sgs, u.sgs);
    } else {
      assert u == t;
    }
  }

  /** Editing child lists changes no parent. */
  lemma ListEditRooted(a: SgTable, b: SgTable)
    requires Rooted(a) && b.Keys == a.Keys && forall s :: s in a ==> b[s].(children := a[s].children) == a[s]
    ensures Rooted(b)
  {
    forall s ensures ParentOf(b, s) == ParentOf(a, s) {
      if s in a {
        assert b[s].(children := a[s].children) == a[s];
      }
    }
    SameParentsRooted(a, b);
  }

  lemma CreateQueueRooted(t: Tree, key: Key, parent: Option<NasId>, o: Outside)
    requires Rooted(t.sgs)
    ensures Rooted(CreateQueue(t, key, parent, o).sgs)
  {
    var u := CreateQueue(t, key, parent, o);
    if u != t {
      ListEditRooted(t.sgs, u.sgs);
    }
  }

  lemma SetQueueRooted(t: Tree, virt: set<nat>, key: Key, parent: Option<NasId>, o: Outside)
    requires Rooted(t.sgs)
    ensures Rooted(SetQueue(t, virt, key, parent, o).sgs)
  {
    SetQueueShape(t, virt, key, parent, o);
    ListEditRooted(t.sgs, SetQueue(t, virt, key, parent, o).sgs);
  }

  lemma DeleteQueueRooted(t: Tree, key: Key, o: Outside)
    requires Rooted(t.sgs)
    ensures Rooted(DeleteQueue(t, key, o).sgs)
  {
    var u := DeleteQueue(t, key, o);
    if u != t {
      ListEditRooted(t.sgs, u.sgs);
    }
  }

  /** A new group is nobody's parent yet. */
  lemma CreateSgRooted(t: Tree, virt: set<nat>, r: SgRequest, o: Outside)
    requires WellLinked(t, virt) && Rooted(t.sgs)
    ensures Rooted(CreateSg(t, r, o).sgs)
  {
    var u := CreateSg(t, r, o);
    if u != t {
      var id := SgIdOf(o.choice);
      FreshSgId(t, o.choice);
      RelinkShape(t.sgs[id := u.sgs[id]], 0, r.parent.value, id);
      NewGroupRooted(t.sgs, u.sgs, id);
    }
  }

  lemma NewGroupRooted(a: SgTable, b: SgTable, id: NasId)
    requires Rooted(a) && 0 !in a && id !in a && id != 0 && id in b && b[id].created && Resolves(a, b[id].parent)
    requires b.Keys == a.Keys + {id} && forall s :: s in a ==> b[s].(children := a[s].children) == a[s]
    requires forall s :: s in a && a[s].created ==> Resolves(a, a[s].parent)
    ensures Rooted(b)
  {
    var p := b[id].parent;
    forall x | x != id ensures ParentOf(b, x) == ParentOf(a, x) {
      if x in a {
        assert b[x].(children := a[x].children) == a[x];
      }
    }
    ResolvedReachesRoot(a, p);
    if AtOrBelow(a, p, id) {
      var n: nat :| Up(a, p, n) == id;
      StaysInside(a, p, n);
      assert false;
    }
    RedirectKeepsRooted(a, b, id);
  }

  lemma {:induction false} StaysInside(a: SgTable, p: NasId, n: nat)
    requires Resolves(a, p) && forall s :: s in a && a[s].created ==> Resolves(a, a[s].parent)
    ensures Resolves(a, Up(a, p, n))
    decreases n
  {
    if n > 0 {
      StaysInside(a, ParentOf(a, p), n - 1);
    }
  }

  lemma DeleteSgRooted(t: Tree, virt: set<nat>, id: NasId, o: Outside)
    requires WellLinked(t, virt) && Rooted(t.sgs)
    ensures Rooted(DeleteSg(t, id, o).sgs)
  {
    var u := DeleteSg(t, id, o);
    if u != t {
      DeletedParents(t.sgs, t.sgs[id].parent, id);
      NotBelowNull(t.sgs, id);
      RedirectKeepsRooted(t.sgs, u.sgs, id);
    }
  }

  lemma DeletedParents(a: SgTable, p: NasId, id: NasId)
    ensures var b := DelChild(a, p, id) - {id};
            ParentOf(b, id) == 0 && forall x :: x != id ==> ParentOf(b, x) == ParentOf(a, x)
  {}

  lemma NotBelowNull(a: SgTable, id: NasId)
    requires 0 !in a && id != 0
    ensures ReachesRoot(a, 0) && !AtOrBelow(a, 0, id)
  {
    assert Up(a, 0, 0) == 0;
    forall n: nat ensures Up(a, 0, n) != id {
      UpFromRoot(a, n);
    }
  }

  /** With no link across the port's boundary, the paths of the groups that stay stay too. */
  lemma DeletePortRooted(t: Tree, port: nat)
    requires Rooted(t.sgs) && 0 !in t.sgs && EdgesInside(t, port)
    ensures Rooted(DeletePort(t, port).sgs)
  {
    var u := DeletePort(t, port);
    forall s | s in u.sgs ensures ReachesRoot(u.sgs, s) {
      var n: nat :| Up(t.sgs, s, n) == 0;
      StaysOutside(t, port, s, n);
    }
  }

  lemma {:induction false} StaysOutside(t: Tree, port: nat, s: NasId, n: nat)
    requires 0 !in t.sgs && EdgesInside(t, port) && (s == 0 || s in DeletePort(t, port).sgs)
    ensures Up(DeletePort(t, port).sgs, s, n) == Up(t.sgs, s, n)
    decreases n
  {
    if n > 0 {
      var u := DeletePort(t, port);
      assert ParentOf(u.sgs, s) == ParentOf(t.sgs, s);
      StaysOutside(t, port, ParentOf(t.sgs, s), n - 1);
    }
  }
}
