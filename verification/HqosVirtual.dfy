/**
 What the notifications of virtual ports do to the tree of queues and scheduler groups: creation adds
 unlinked rows, binding to a physical port and unbinding only set or clear the hardware side. Child
 lists are not touched by any of them, so each has its exact condition.
 */
module HqosVirtual {
  import opened Wrappers
  import opened NasIds
  import opened IdGenerator
  import opened OrderedKeys
  import opened QosRows
  import opened QosSwitches
  import opened HqosForest
  import opened HqosSteps
  import opened VpQueues
  import opened VpTables

  // ---- Creation ----

  /**
   A create notification of a virtual port: a port with queues or groups is left alone, else its first
   queues are added under ids newly taken, and its groups once all queues are there.
   */
  ghost predicate CreatesVp(t: Tree, u: Tree, sh: Shape, port: nat) {
    if !NoHqos(t.queues, t.sgs, port) then u == t
    else
      && VpFilled(t.queues, t.sgs, u.queues, u.sgs, sh, port) && u.sgIds == t.sgIds
      && (QueueIdsOk(t.queues, t.queueIds) ==> QueueIdsOk(u.queues, u.queueIds))
  }

  lemma VpGroupIsHome(port: nat, sh: Shape, s: NasId)
    requires PackableShape(port, sh) && s in VpGroups(port, sh, sh.ucast)
    ensures Formed(s) && SgPort(s) == port
  {
    var i :| 0 <= i < sh.ucast && s == FormatSgId(port, sh.leaf, i);
    VpGroupIsFormed(port, sh, i);
  }

  /** Queue ids and scheduler-group ids of the tree, each with its generator. */
  ghost predicate TreeIdsOk(t: Tree) {
    QueueIdsOk(t.queues, t.queueIds) && SgIdsOk(t.sgs, t.sgIds)
  }

  /** Queue ids and scheduler-group ids never meet, and none is null. */
  lemma IdsStayApart(u: Tree)
    requires TreeIdsOk(u)
    ensures IdsDistinct(u)
  {
    NullIsNoSgId(u.sgs, u.sgIds);
    forall k | k in u.queues ensures u.queues[k].id !in u.sgs {
      GeneratedIdTags(QueueRawOf(u.queues[k].id));
      if u.queues[k].id in u.sgs {
        SgIdIsNoQueueId(u, u.queues[k].id);
        assert false;
      }
    }
  }

  lemma NullIsNoSgId(sgs: map<NasId, SchedGroup>, ids: set<nat>)
    requires SgIdsOk(sgs, ids)
    ensures 0 !in sgs
  {
    if 0 in sgs {
      if Formed(0) {
        FieldBounds(0);
        SgIdValue(SgPort(0), SgLevel(0), SgIndex(0));
      } else {
        GeneratedIdValues(SgRawOf(0));
      }
      assert false;
    }
  }

  lemma CreatesVpKeepsIds(t: Tree, u: Tree, sh: Shape, port: nat)
    requires TreeIdsOk(t) && PackableShape(port, sh) && CreatesVp(t, u, sh, port)
    ensures TreeIdsOk(u) && (SgsAtHome(t.sgs) ==> SgsAtHome(u.sgs))
  {
    if NoHqos(t.queues, t.sgs, port) && u.sgs != t.sgs {
      forall s | s in VpGroups(port, sh, sh.ucast) ensures Formed(s) && SgPort(s) == port {
        VpGroupIsHome(port, sh, s);
      }
      AddedSgsAtHome(t.sgs, u.sgs, t.sgIds, sh, port);
    }
  }

  lemma AddedSgsAtHome(a: map<NasId, SchedGroup>, b: map<NasId, SchedGroup>, ids: set<nat>, sh: Shape, port: nat)
    requires SgIdsOk(a, ids) && SgsAdded(a, b, port, sh.leaf, VpGroups(port, sh, sh.ucast))
    requires forall s :: s in VpGroups(port, sh, sh.ucast) ==> Formed(s) && SgPort(s) == port
    ensures SgIdsOk(b, ids) && (SgsAtHome(a) ==> SgsAtHome(b))
  {}

  /** Rows were added without hardware side, and with no child. */
  ghost predicate OnlyUnbacked(t: Tree, u: Tree) {
    && (forall k :: k in t.queues ==> k in u.queues && u.queues[k] == t.queues[k])
    && (forall s :: s in t.sgs ==> s in u.sgs && u.sgs[s] == t.sgs[s])
    && (forall k :: k in u.queues && k !in t.queues ==> !u.queues[k].created)
    && (forall s :: s in u.sgs && s !in t.sgs ==> !u.sgs[s].created && u.sgs[s].children == [])
  }

  lemma AddedOnlyUnbacked(t: Tree, u: Tree, port: nat, leaf: nat, parents: map<Key, NasId>, groups: set<NasId>)
    requires QueuesAdded(t.queues, u.queues, parents)
    requires u.sgs == t.sgs || SgsAdded(t.sgs, u.sgs, port, leaf, groups)
    ensures OnlyUnbacked(t, u)
  {}

  lemma CreatesVpOnlyUnbacked(t: Tree, u: Tree, sh: Shape, port: nat)
    requires CreatesVp(t, u, sh, port)
    ensures OnlyUnbacked(t, u)
  {
    if NoHqos(t.queues, t.sgs, port) {
      var n :| && 0 <= n <= sh.total && QueuesAdded(t.queues, u.queues, VpParents(port, sh, n))
               && (if n < sh.total then u.sgs == t.sgs
                   else SgsAdded(t.sgs, u.sgs, port, sh.leaf, VpGroups(port, sh, sh.ucast)));
      AddedOnlyUnbacked(t, u, port, sh.leaf, VpParents(port, sh, n), VpGroups(port, sh, sh.ucast));
    }
  }

  lemma UnbackedSameChildren(t: Tree, u: Tree)
    requires OnlyUnbacked(t, u)
    ensures forall c, q :: Child(u, c, q) <==> Child(t, c, q)
  {
    forall c, q ensures QueueChild(u, c, q) <==> QueueChild(t, c, q) {
      if QueueChild(t, c, q) {
        var k :| k in t.queues && t.queues[k].id == c && t.queues[k].created && t.queues[k].parent == q;
        assert u.queues[k] == t.queues[k];
      }
    }
  }

  /** Adding rows without hardware side keeps the tree well linked, as long as the ids stay apart. */
  lemma UnbackedKeepsLinks(t: Tree, virt: set<nat>, u: Tree)
    requires WellLinked(t, virt) && OnlyUnbacked(t, u) && TreeIdsOk(u) && IdsDistinct(u)
    ensures WellLinked(u, virt)
  {
    UnbackedListsMatch(t, u);
    UnbackedParentsExist(t, virt, u);
  }

  lemma UnbackedListsMatch(t: Tree, u: Tree)
    requires ListsMatch(t) && ParentsExist(t) && 0 !in u.sgs && OnlyUnbacked(t, u)
    ensures ListsMatch(u)
  {
    UnbackedSameChildren(t, u);
    forall q | q in u.sgs ensures ListOk(u, q) {
      if q in t.sgs {
        assert ListOk(t, q);
      } else {
        forall c ensures !Child(t, c, q) {
          NoChildOfUnknown(t, c, q);
        }
      }
    }
  }

  lemma UnbackedParentsExist(t: Tree, virt: set<nat>, u: Tree)
    requires ParentsExist(t) && OnRealPorts(t, virt) && OnlyUnbacked(t, u)
    ensures ParentsExist(u) && OnRealPorts(u, virt)
  {}

  lemma NoChildOfUnknown(t: Tree, c: NasId, q: NasId)
    requires ParentsExist(t) && q !in t.sgs && q != 0
    ensures !Child(t, c, q)
  {}

  lemma CreatesVpKeepsLinks(t: Tree, virt: set<nat>, u: Tree, sh: Shape, port: nat)
    requires WellLinked(t, virt) && PackableShape(port, sh) && CreatesVp(t, u, sh, port)
    ensures WellLinked(u, virt)
  {
    CreatesVpOnlyUnbacked(t, u, sh, port);
    CreatesVpKeepsIds(t, u, sh, port);
    IdsStayApart(u);
    UnbackedKeepsLinks(t, virt, u);
  }

  // ---- Unbinding ----

  /**
   A dissociation: the port's queues and its groups right above them lose their hardware side. No
   child list is edited.
   */
  ghost predicate Unbinds(t: Tree, u: Tree, port: nat, leaf: nat) {
    && QueuesReset(t.queues, u.queues, port) && SgsReset(t.sgs, u.sgs, port, leaf)
    && u.queueIds == t.queueIds && u.sgIds == t.sgIds
  }

  /** None of the nodes an unbinding clears is in a child list: backed ones have no parent. */
  ghost predicate NothingHeld(t: Tree, port: nat, leaf: nat) {
    && (forall k :: k in t.queues && k.port == port && t.queues[k].created ==> t.queues[k].parent == 0)
    && (forall s :: s in t.sgs && t.sgs[s].port == port && t.sgs[s].level == leaf && t.sgs[s].created ==>
          t.sgs[s].parent == 0)
  }

  /** No group of the port off the leaf level is hardware-backed. */
  ghost predicate UpperUnbacked(t: Tree, port: nat, leaf: nat) {
    forall s :: s in t.sgs && t.sgs[s].port == port && t.sgs[s].created ==> t.sgs[s].level == leaf
  }

  lemma UnbindSameChildren(t: Tree, port: nat, leaf: nat, u: Tree, c: NasId, q: NasId)
    requires Unbinds(t, u, port, leaf) && NothingHeld(t, port, leaf) && q != 0
    ensures Child(u, c, q) <==> Child(t, c, q)
  {
    if QueueChild(t, c, q) {
      var k :| k in t.queues && t.queues[k].id == c && t.queues[k].created && t.queues[k].parent == q;
      assert u.queues[k] == t.queues[k];
    }
  }

  /** A backed node with a parent is in that parent's list, and an unbinding leaves it there. */
  lemma UnboundQueueStaysListed(t: Tree, port: nat, leaf: nat, u: Tree, k: Key)
    requires Links(t) && Unbinds(t, u, port, leaf)
    requires k in t.queues && k.port == port && t.queues[k].created && t.queues[k].parent != 0
    ensures !ListsMatch(u)
  {
    var p, c := t.queues[k].parent, t.queues[k].id;
    assert ListOk(t, p) && Child(t, c, p) && c in u.sgs[p].children;
    assert !QueueChild(u, c, p) && !SgChild(u, c, p);
    assert !ListOk(u, p);
  }

  lemma UnboundGroupStaysListed(t: Tree, port: nat, leaf: nat, u: Tree, s: NasId)
    requires Links(t) && Unbinds(t, u, port, leaf)
    requires s in t.sgs && t.sgs[s].port == port && t.sgs[s].level == leaf && t.sgs[s].created && t.sgs[s].parent != 0
    ensures !ListsMatch(u)
  {
    var p := t.sgs[s].parent;
    assert ListOk(t, p) && Child(t, s, p) && s in u.sgs[p].children;
    assert !QueueChild(u, s, p) && !SgChild(u, s, p);
    assert !ListOk(u, p);
  }

  /**
   After an unbinding the child lists match, and the tree is well linked, exactly when none of the
   nodes it clears had a parent.
   */
  lemma UnbindLinksExact(t: Tree, virt: set<nat>, port: nat, leaf: nat, u: Tree)
    requires WellLinked(t, virt) && Unbinds(t, u, port, leaf)
    ensures ListsMatch(u) <==> NothingHeld(t, port, leaf)
    ensures WellLinked(u, virt) <==> NothingHeld(t, port, leaf)
  {
    if NothingHeld(t, port, leaf) {
      UnbindKeepsLists(t, port, leaf, u);
      UnbindKeepsParents(t, virt, port, leaf, u);
      UnbindKeepsIds(t, port, leaf, u);
      IdsStayApart(u);
    } else {
      if k :| k in t.queues && k.port == port && t.queues[k].created && t.queues[k].parent != 0 {
        UnboundQueueStaysListed(t, port, leaf, u, k);
      } else {
        var s :| s in t.sgs && t.sgs[s].port == port && t.sgs[s].level == leaf
                 && t.sgs[s].created && t.sgs[s].parent != 0;
        UnboundGroupStaysListed(t, port, leaf, u, s);
      }
    }
  }

  lemma UnbindKeepsLists(t: Tree, port: nat, leaf: nat, u: Tree)
    requires Links(t) && Unbinds(t, u, port, leaf) && NothingHeld(t, port, leaf)
    ensures ListsMatch(u)
  {
    forall q | q in u.sgs ensures ListOk(u, q) {
      assert ListOk(t, q);
      forall c ensures Child(u, c, q) <==> Child(t, c, q) {
        UnbindSameChildren(t, port, leaf, u, c, q);
      }
    }
  }

  lemma UnbindKeepsParents(t: Tree, virt: set<nat>, port: nat, leaf: nat, u: Tree)
    requires ParentsExist(t) && OnRealPorts(t, virt) && Unbinds(t, u, port, leaf)
    ensures ParentsExist(u) && OnRealPorts(u, virt)
  {}

  lemma UnbindKeepsIds(t: Tree, port: nat, leaf: nat, u: Tree)
    requires TreeIdsOk(t) && Unbinds(t, u, port, leaf)
    ensures TreeIdsOk(u) && u.sgs.Keys == t.sgs.Keys && (SgsAtHome(t.sgs) ==> SgsAtHome(u.sgs))
  {}

  /** Once the port is virtual, a group of it off the leaf level must not be backed either. */
  lemma UnbindPortsExact(t: Tree, virt: set<nat>, port: nat, leaf: nat, u: Tree)
    requires OnRealPorts(t, virt) && Unbinds(t, u, port, leaf)
    ensures OnRealPorts(u, virt + {port}) <==> UpperUnbacked(t, port, leaf)
  {}
}
