/**
 The CPS operations on queues and scheduler groups as they run on the switch object. Each is
 proved to take the switch from one tree of HqosForest to the next; `rc` is true on success.
 */
module HqosOperations {
  import opened Wrappers
  import opened NasIds
  import opened IdGenerator
  import opened OrderedKeys
  import opened QosRows
  import opened QosSwitches
  import opened HqosForest
  import opened HqosRequests

  ghost function TreeOf(sw: QosSwitch): Tree
    reads sw
  {
    Tree(sw.queues, sw.sgs, sw.queueIds, sw.sgIds)
  }

  /** nas_qos_notify_parent_child_change */
  method NotifyParentChildChange(sw: QosSwitch, parent: NasId, child: NasId, add: bool)
    modifies sw`sgs
    ensures sw.sgs == if add then AddChild(old(sw.sgs), parent, child) else DelChild(old(sw.sgs), parent, child)
  {
    if parent in sw.sgs {
      var sg := sw.sgs[parent];
      if add {
        sg := sg.(children := sg.children + [child]);
      } else {
        sg := sg.(children := Without(sg.children, child));
      }
      sw.sgs := sw.sgs[parent := sg];
    }
  }

  method QueueCreate(sw: QosSwitch, key: Key, parent: Option<NasId>, o: Outside) returns (rc: bool)
    modifies sw`queues, sw`sgs, sw`queueIds
    ensures TreeOf(sw) == CreateQueue(old(TreeOf(sw)), key, parent, o)
    ensures rc <==> QueueCreatable(old(TreeOf(sw)), key, parent, o)
  {
    if parent.None? || !o.portKnown {
      return false;
    }
    var raw := Allocate(sw.queueIds, QUEUE_ID_MAX, o.choice);
    if raw.None? {
      return false;
    }
    sw.queueIds := sw.queueIds + {raw.value};
    var id := QueueIdOf(raw.value);
    var created := o.accepts && Resolves(sw.sgs, parent.value);
    if created {
      created := sw.AddQueue(key, Queue(id, parent.value, o.ndi, true, []));
    }
    if !created {
      // the exception handler gives the id back
      sw.queueIds := sw.queueIds - {raw.value};
      assert sw.queueIds == old(sw.queueIds);
      return false;
    }
    NotifyParentChildChange(sw, parent.value, id, true);
    assert key in sw.queues;
    rc := true;
  }

  method QueueSet(sw: QosSwitch, virt: set<nat>, key: Key, parent: Option<NasId>, o: Outside) returns (rc: bool)
    modifies sw`queues, sw`sgs
    ensures TreeOf(sw) == SetQueue(old(TreeOf(sw)), virt, key, parent, o)
    ensures rc <==> QueueSettable(old(TreeOf(sw)), virt, key, parent, o)
  {
    if key !in sw.queues {
      return false;
    }
    var stored := sw.queues[key];
    var queue := stored;
    if parent.Some? {
      queue := queue.(parent := parent.value);
    }
    if key.port !in virt && stored.created {
      var dirty := parent.Some? || o.staleParent;
      if !o.accepts || (dirty && !Resolves(sw.sgs, queue.parent)) {
        return false;
      }
      if dirty {
        NotifyParentChildChange(sw, stored.parent, stored.id, false);
        NotifyParentChildChange(sw, queue.parent, stored.id, true);
      }
    }
    sw.queues := sw.queues[key := queue];
    rc := true;
  }

  method QueueDelete(sw: QosSwitch, key: Key, o: Outside) returns (rc: bool)
    modifies sw`queues, sw`sgs, sw`queueIds
    ensures TreeOf(sw) == DeleteQueue(old(TreeOf(sw)), key, o)
    ensures rc <==> QueueDeletable(old(TreeOf(sw)), key, o)
  {
    if key !in sw.queues || !o.accepts {
      return false;
    }
    var stored := sw.queues[key];
    NotifyParentChildChange(sw, stored.parent, stored.id, false);
    sw.RemoveQueue(key);
    rc := true;
  }

  method SgCreate(sw: QosSwitch, r: SgRequest, o: Outside) returns (rc: bool)
    modifies sw`sgs, sw`sgIds
    ensures TreeOf(sw) == CreateSg(old(TreeOf(sw)), r, o)
    ensures rc <==> SgCreatable(old(TreeOf(sw)), r, o, SgIdOf(o.choice))
  {
    if r.port.Some? && !o.portKnown {
      return false;
    }
    var raw := Allocate(sw.sgIds, SG_ID_MAX, o.choice);
    if raw.None? {
      return false;
    }
    sw.sgIds := sw.sgIds + {raw.value};
    var id := SgIdOf(raw.value);
    var created := Complete(r) && o.accepts && Resolves(sw.sgs, r.parent.value);
    if created {
      created := sw.AddSchedGroup(id, SchedGroup(r.port.value, r.level.value, r.profile.value, r.maxChild.value,
                                                 r.parent.value, [], o.ndi, true));
    }
    if !created {
      sw.sgIds := sw.sgIds - {raw.value};
      assert sw.sgIds == old(sw.sgIds);
      return false;
    }
    NotifyParentChildChange(sw, r.parent.value, id, true);
    rc := true;
  }

  /** The stored row is overwritten by the local copy, child list and all. */
  method SgSet(sw: QosSwitch, virt: set<nat>, id: NasId, r: SgRequest, o: Outside) returns (rc: bool)
    modifies sw`sgs
    ensures TreeOf(sw) == SetSg(old(TreeOf(sw)), virt, id, r, o)
    ensures rc <==> SgSettable(old(TreeOf(sw)), virt, id, r, o)
  {
    if id !in sw.sgs {
      return false;
    }
    var stored := sw.sgs[id];
    if r.port.Some? && !o.portKnown {
      return false;
    }
    var sg := stored.(port := Given(r.port, stored.port), level := Given(r.level, stored.level),
                      profile := Given(r.profile, stored.profile), maxChild := Given(r.maxChild, stored.maxChild),
                      parent := Given(r.parent, stored.parent));
    if sg.level == 0 && (r.profile.Some? || o.staleProfile) {
      return false;
    }
    if r.maxChild.Some? || o.staleMaxChild {
      return false;
    }
    if sg.port !in virt && stored.created {
      var dirty := r.parent.Some? || o.staleParent;
      if !o.accepts || (dirty && !Resolves(sw.sgs, sg.parent)) {
        return false;
      }
      if dirty {
        NotifyParentChildChange(sw, stored.parent, id, false);
        NotifyParentChildChange(sw, sg.parent, id, true);
      }
    }
    sw.sgs := sw.sgs[id := sg];
    rc := true;
  }

  method SgDelete(sw: QosSwitch, id: NasId, o: Outside) returns (rc: bool)
    modifies sw`sgs, sw`sgIds
    ensures TreeOf(sw) == DeleteSg(old(TreeOf(sw)), id, o)
    ensures rc <==> SgDeletable(old(TreeOf(sw)), id, o)
  {
    if id !in sw.sgs || |sw.sgs[id].children| > 0 || !o.accepts {
      return false;
    }
    NotifyParentChildChange(sw, sw.sgs[id].parent, id, false);
    sw.RemoveSchedGroup(id);
    rc := true;
  }
}
