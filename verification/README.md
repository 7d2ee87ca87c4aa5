# Verified model of the switch QoS store

A Dafny model of the in-memory QoS object store of one switch: queues, scheduler groups (SGs),
priority groups (PGs), port ingress and egress nodes, WRED and scheduler profiles, QoS maps, their id
generators, the CPS create/set/delete/rollback operations on them, the bring-up of hardware and
virtual ports, the queue statistics read, and the start-up script's view of a port's SGs.

`dafny verify dfyconfig.toml` checks everything.

## How it is built

* `Bits`, `NasIds` - the id and key macros, bit by bit, and what they mean as numbers.
* `IdGenerator`, `OrderedKeys` - what is assumed of `nas::id_generator_t`; `std::map` iteration and
  range scans. An unordered table is walked in an arbitrary order.
* `QosSwitch` - the switch object (`class QosSwitch`) and its table operations.
* `HqosForest`, `HqosSteps`, `HqosRequests`, `HqosEffects`, `HqosOperations` - the tree of queues and SGs:
  each operation as a function from tree to tree, what each keeps, when it is refused and what an accepted
  one leaves field by field, and the imperative operations proved equal to the functions.
* `HqosInit`, `HqosBoot`, `HqosLinking`, `HqosQueues`, `HqosPort` - bringing a hardware port up: reading
  its queues and SGs back, forming their ids, and linking the tree.
* `HqosVirtual`, `HqosBinding` - what creating, associating and dissociating a virtual port does to the tree.
* `HqosAcyclic`, `HqosSound`, `HqosReachable`, `HqosWitnesses` - when the tree is a forest, the exact condition
  under which each operation and notification keeps it one, all runs from the empty switch, and small forests
  at which each condition fails.
* `VpQueues`, `VpTables`, `VpEffects`, `PortLifecycle` - virtual ports: created, associated, dissociated,
  deleted.
* `ProfileTables`, `WredProfiles`, `WredUndo`, `WredEffects`, `SchedulerProfiles`, `SchedulerEffects` -
  profile tables, undo, and what an accepted request leaves.
* `QosMaps`, `QosMapRuns`, `QosMapEffects` - maps and map entries.
* `QueueStats`, `QueueStatReads` - the statistics read as a trace of hardware calls.
* `InitScript` - the sorted lists of `base_qos_init.py`.

What comes from outside is a parameter: the hardware's answers, the ids it returns, the id a
generator picks, whether an interface is known, which attributes are still dirty on a stored row, the
order in which an unordered table is walked. Each operation is atomic. A failed commit changes no
table; a commit that modifies reports at least the changed attributes and at most those ever set.

Enumeration values that the C++ code takes from headers outside this repository are those of
`scripts/lib/python/nas_qos_utils.py`: queue types at lines 167-169, strict priority at line 174, the
mark modes at lines 189-196.

## What the proofs found

Where a promised property does not hold of the code, the exact condition is proved instead.

* A set of a hardware-backed SG leaves the child lists wrong in exactly two cases: it names the SG
  itself as parent, and writing the stale local copy back loses the edit, so that it has a parent but is
  in no list; or it also names a virtual port, and the new parent is stored without editing any list
  (`SetSgListsExact`, `OwnParentWitness`). Moving a hardware-backed SG to a virtual port at all, putting
  it below one of its own descendants, and moving a packed id to another port are exactly the other
  ways in which a set leaves the forest (`SetSgKeepsForestExact`, `SetToVirtualPortWitness`,
  `SetBelowDescendantWitness`, `PackedIdMovesWitness`).
* Creating a queue or an SG through the CPS on a virtual port, which the handlers do not refuse, leaves a
  hardware-backed row there, whose later sets edit no child list (`CreateQueueKeepsForestExact`,
  `CreateSgKeepsForestExact`, `CreateOnVirtualPortWitness`).
* Deleting a port keeps the links exactly when none crosses the port's boundary
  (`DeletePortKeepsIffInside`, `DeleteAcrossLinkWitness`).
* Dissociating a port clears the hardware side of its queues and leaf-level SGs and edits no child list.
  The lists still match exactly when none of these nodes had a parent (`UnbindLinksExact`,
  `UnbindWitness`), so dissociating a port that was brought up while mapped leaves them in lists that no
  longer match. Its SGs of other levels stay hardware-backed on what is now a virtual port
  (`UnbindKeepsForestExact`). In a forest, dissociating a port that is virtual already is always safe
  (`UnbindVirtualKeepsForest`).
* Associating a virtual port makes its queues hardware-backed under the parents set in advance, without
  entering them in any list: the links survive exactly when nothing that is bound had a parent
  (`BindLinksExact`, `BindWitness`). Setting the parent of every bound queue, as the stored configuration
  may do next, repairs them (`ReplayRepairsAssociation`).
* A run from the empty switch goes through forests only exactly when each of its moves meets these
  conditions (`ForestInEveryRun`); ids never clash in any run (`IdsInEveryRun`).
* A node whose recorded hardware parent is null becomes a root exactly when every SG in the table is
  hardware-backed: otherwise the lookup by null id can find a virtual port's SG
  (`NullParentIsRootIffAllBacked`), and which one then depends on the order of the table
  (`TableOrderIsIrrelevantExact`, `NullParentWitness`).
* Local map ids of 128 and more are silently reduced to seven bits (`MapIdRoundTrip`), and 32-bit
  second key halves to sixteen (`EntryKeySplits`).
* Rolling back a WRED set restores the row exactly when the request added no NPU (`UndoSet`).
* Rolling back a scheduler-profile set is sure to restore the weight exactly when it was 0, or the
  profile was not strict priority and the request does not set strict priority without a weight
  (`WeightRestoredExact`, `WeightIsLost`).
* Rolling back a map-entry create that overwrote an entry deletes it (`UndoRestores`).
* Rolling back a set of an SG restores its row exactly when no port was given, or the old port and level
  are one number, and no new level was: the saved object holds the level as the port (`SetSgUndoneExact`).
* Dissociating a port undoes its association exactly when the association brought no shadow queues and no
  numbers of children, which stay (`DissociationUndoesAssociation`).
* Rolling back the creation of a queue or SG restores the tree exactly; rolling back the deletion of a queue
  gives its row a new id, and no shadow queues (`CreateQueueUndone`, `DeleteQueueUndone`).
* A single SG with a generated id on a level shifts every position of the start-up script's list, so that
  no position is the local index it is used for (`PositionsAreIndicesExact`).
* In a wildcard statistics read for one MMU, a queue absent from that MMU takes the sync without
  making it; a later queue is then read and cleared unsynchronised (`SyncedWhateverTheHardware`,
  `AbsentQueueTakesTheSync`).
* Dissociating a virtual port before it was created leaves an egress node without queues that the later
  create does not refresh. Over all runs of notifications this is the only way a port node goes stale
  (`RunNotifications`, `DissociatedFirstGoesStale`).

A remark: `DeletedSgIsNeverRestored` records that the saved object of a deleted SG lacks the mandatory
level, so its rollback is always refused.

## Model

| member | source | states |
|---|---|---|
| NasIds.SgIdRoundTrip | inc/opx/nas_qos_common.h:53-78 | unpacking an SG id gives back port, level and index exactly when each fits its field |
| NasIds.SgIdInjective | inc/opx/nas_qos_common.h:69-78 | packed SG ids of different (port, level, index) differ |
| NasIds.SgIdMonotone | inc/opx/nas_qos_common.h:69-74 | ids of one port and level are ordered exactly as their local indices |
| NasIds.IdKindsDisjoint | inc/opx/nas_qos_switch.h:229-279 | auto-formed SG ids, allocated SG ids and queue ids are pairwise different, and the is-queue and auto-formed tests classify all of them correctly |
| NasIds.ReleaseInvertsAlloc | inc/opx/nas_qos_switch.h:229-278 | releasing an allocated id names the generator value it came from |
| NasIds.ReleaseAutoFormed | src/nas_qos_switch.cpp:399-417 | releasing an auto-formed id names no value a generator can hand out |
| NasIds.MapIdRoundTrip | inc/opx/nas_qos_common.h:83-97 | type and local id of a map id are recovered exactly when the local id is at most 127; ids of types below 16 stay below 2048 |
| NasIds.CompositeKeyRoundTrip | inc/opx/nas_qos_common.h:101-103 | composite key halves are recovered exactly when both are below 2^16 |
| NasIds.CompositeKeyInjective | inc/opx/nas_qos_common.h:101-103 | composite keys of halves below 2^16 are injective |
| OrderedKeys.LessIsStrictTotalOrder | inc/opx/nas_qos_queue.h:46-54 | the key comparison is a strict total order |
| OrderedKeys.ScanIsFilter | src/nas_qos_switch.cpp:181-198 | a scan from the lower bound of a port to the first larger port visits exactly the port's keys, in key order |
| OrderedKeys.SortedIsUnique | src/nas_qos_switch.cpp:181-198 | a key set has only one sorted listing, so two passes agree |
| QosSwitches.QosSwitch.GetPortQueues | src/nas_qos_switch.cpp:181-198 | returns the rows of the port's queues in key order, capped at the count |
| QosSwitches.QosSwitch.GetPortQueueIds | src/nas_qos_switch.cpp:200-219 | returns the number of the port's queues whatever the count, and their ids in key order up to the count |
| QosSwitches.QosSwitch.NumberOfPortQueuesByType | src/nas_qos_switch.cpp:226-248 | counts the port's queues of a type; type NONE counts all |
| QosSwitches.CountKindIsCardinality | src/nas_qos_switch.cpp:226-248 | counting along the key order gives the size of the filter by type |
| QosSwitches.QosSwitch.PortQueueIsInitialized | src/nas_qos_switch.cpp:250-265 | true exactly when the port has a queue |
| QosSwitches.QosSwitch.GetPortPgIds | src/nas_qos_switch.cpp:582-602 | returns the number of the port's PGs, and their ids in key order up to the count |
| QosSwitches.QosSwitch.PortPgIsInitialized | src/nas_qos_switch.cpp:604-619 | true exactly when the port has a PG |
| QosSwitches.QosSwitch.PortSgIsInitialized | src/nas_qos_switch.cpp:386-397 | true exactly when some SG is on the port |
| QosSwitches.QosSwitch.DeleteQueueByIfindex | src/nas_qos_switch.cpp:267-284 | erasing while iterating removes exactly the port's queues and releases exactly their ids |
| QosSwitches.QosSwitch.DeleteSgByIfindex | src/nas_qos_switch.cpp:399-417 | the same for SGs, in any walk order |
| QosSwitches.QosSwitch.DeletePgByIfindex | src/nas_qos_switch.cpp:621-639 | the same for PGs |
| QosSwitches.QueueDeletionKeepsIds | src/nas_qos_switch.cpp:267-284 | a port deletion releases only ids in use, none of another port's queues, and live ids stay distinct and in use |
| QosSwitches.SgDeletionKeepsIds | src/nas_qos_switch.cpp:399-417 | auto-formed ids released by a port deletion never name an id in use, and the id discipline survives |
| QosSwitches.PgDeletionKeepsIds | src/nas_qos_switch.cpp:621-639 | the same for PGs |
| HqosForest.SetSgLinks | src/nas_qos_cps_scheduler_group.cpp:833-943 | a re-parented SG moves from the old parent's list to the new one and its own list survives the write-back; if it becomes its own parent the lists no longer match |
| HqosForest.SetQueueLinks | src/nas_qos_cps_queue.cpp:376-488 | a re-parented queue is in its new parent's list once and in no other, also when the parent does not change |
| HqosForest.CreateQueueLinks | src/nas_qos_cps_queue.cpp:276-374 | a new queue is in exactly its parent's list |
| HqosForest.CreateSgLinks | src/nas_qos_cps_scheduler_group.cpp:761-831 | a new SG is in exactly its parent's list and has no child |
| HqosForest.DeleteQueueLinks | src/nas_qos_cps_queue.cpp:490-566 | a deleted queue is in no list |
| HqosForest.DeleteSgLinks | src/nas_qos_cps_scheduler_group.cpp:946-1023 | a deleted SG, which has no child, is in no list and nobody's parent |
| HqosOperations.NotifyParentChildChange | src/nas_qos_cps_scheduler_group.cpp:1158-1168 | adds or removes the child in the parent's list, or does nothing for an unknown parent |
| HqosOperations.QueueCreate | src/nas_qos_cps_queue.cpp:276-374 | the tree afterwards is the one the create step describes; succeeds exactly for a known port and parent, a free key and id and an accepting hardware; a failed create, whose handler gives the id back, leaves no trace |
| HqosOperations.QueueSet | src/nas_qos_cps_queue.cpp:376-488 | the tree afterwards is the one the set step describes; succeeds exactly for a known queue whose pushed set the hardware accepts with a known parent; a failed set changes nothing |
| HqosOperations.QueueDelete | src/nas_qos_cps_queue.cpp:490-566 | succeeds exactly for a known queue the hardware lets go, and then unlinks it, releases its id and erases the row |
| HqosOperations.SgCreate | src/nas_qos_cps_scheduler_group.cpp:761-831 | the tree afterwards is the one the create step describes; succeeds exactly with all mandatory attributes, a known port and parent, a free id and an accepting hardware |
| HqosOperations.SgSet | src/nas_qos_cps_scheduler_group.cpp:833-943 | the tree afterwards is the one the set step describes, the stored row overwritten last by the local copy and its stale child list; succeeds exactly when the handler's checks pass - port known, no profile at the resulting level 0, no number of children - and a pushed set is accepted with a known parent |
| HqosOperations.SgDelete | src/nas_qos_cps_scheduler_group.cpp:946-1023 | succeeds exactly for a known SG without children that the hardware lets go, and then unlinks it, releases its id if generated and erases the row |
| HqosRequests.CreateQueueTakesEffect | src/nas_qos_cps_queue.cpp:276-374 | a create leaves one row with the requested parent, the hardware's id, no shadow queues and a newly taken id, last in its parent's list; refused, nothing changes |
| HqosRequests.SetQueueTakesEffect | src/nas_qos_cps_queue.cpp:376-488 | a set changes the parent field only, and only if a parent is given; the queue leaves the old parent's list for the end of the new one's exactly when the set was pushed with a parent dirty |
| HqosRequests.DeleteQueueTakesEffect | src/nas_qos_cps_queue.cpp:490-566 | a delete removes the row, its id and its entry in the parent's list, keeping the order of the rest; refused, nothing changes |
| HqosRequests.CreateSgTakesEffect | src/nas_qos_cps_scheduler_group.cpp:761-831 | a create leaves one row holding every requested value - port, level, profile, number of children, parent - with the hardware's id and no child, last in its parent's list; refused, nothing changes |
| HqosRequests.SetSgTakesEffect | src/nas_qos_cps_scheduler_group.cpp:833-943 | after a stored set port, level, profile and parent are each as requested if given and else as before; number of children, child list, hardware id and state stay; no other row changes beside the two parents' lists; refused, nothing changes |
| HqosRequests.DeleteSgTakesEffect | src/nas_qos_cps_scheduler_group.cpp:946-1023 | a delete removes a childless SG and its list entry; a generated id is given back, a packed one is not; refused, nothing changes |
| HqosRequests.DeletePortTakesEffect | src/nas_qos_switch.cpp:267-284 | deleting a port removes exactly its rows and gives back exactly their ids; all other rows stay as they are |
| HqosReachable.ForestInEveryRun | src/nas_qos_cps_scheduler_group.cpp:160-1023 | for every run from the empty switch, over requests accepted and refused, rollbacks, bring-ups, creation, association and dissociation of virtual ports and port deletions: every state is a forest - parents exist, each child list holds exactly the nodes naming it, no SG is above itself, hardware-backed nodes are on physical ports, packed ids on their own port, ids and hardware ids in order - exactly when every move meets its condition |
| HqosReachable.MoveKeepsForestExact | src/nas_qos_cps_scheduler_group.cpp:160-1023 | one move from a forest leads to a forest exactly when it meets a condition on the tables and the request alone |
| HqosReachable.IdsInEveryRun | inc/opx/nas_qos_switch.h:229-279 | in every state of every run, whatever the moves: queue ids are distinct and in use, SG ids packed or in use, no queue id is an SG id, and none is null |
| HqosSound.SetSgKeepsForestExact | src/nas_qos_cps_scheduler_group.cpp:833-943 | for every request: a set keeps the forest exactly when it stores no hardware-backed SG on a virtual port or under itself or a descendant, and moves no packed id to another port |
| HqosSound.BringUpKeepsForest | src/nas_qos_cps_scheduler_group.cpp:509-582 | a bring-up keeps the forest, however far it gets |
| HqosSound.CreateQueueKeepsForestExact | src/nas_qos_cps_queue.cpp:276-374 | a queue create keeps the forest exactly when it is refused or not on a virtual port |
| HqosSound.CreateSgKeepsForestExact | src/nas_qos_cps_scheduler_group.cpp:761-831 | the same of an SG create |
| HqosSound.DeletePortKeepsForestExact | src/nas_qos_switch_list.cpp:219-250 | a port deletion keeps the forest exactly when no link crosses the port's boundary, whichever kind the port number comes back as |
| HqosSound.CreateVpKeepsForest | src/nas_qos_cps_scheduler_group.cpp:464-543 | creating a virtual port keeps the forest, however far it gets |
| HqosSound.UnbindKeepsForestExact | src/nas_qos_cps_scheduler_group.cpp:160-189 | a dissociation keeps the forest exactly when none of the nodes it clears had a parent and no other SG of the port is hardware-backed |
| HqosSound.UnbindVirtualKeepsForest | src/nas_qos_cps_scheduler_group.cpp:160-189 | so dissociating a port that is virtual already always keeps it |
| HqosSound.BindKeepsForestExact | src/nas_qos_cps_scheduler_group.cpp:199-332 | an association keeps the forest exactly when nothing it binds had a parent |
| HqosVirtual.UnbindLinksExact | src/nas_qos_cps_queue.cpp:801-830 | after a dissociation the child lists match, and the tree is well linked, exactly when none of the nodes it clears had a parent |
| HqosVirtual.CreatesVpKeepsLinks | src/nas_qos_cps_scheduler_group.cpp:464-507 | the rows of a new virtual port are in no list and leave all links as they are |
| HqosBinding.QueueAssociate | src/nas_qos_cps_queue.cpp:841-935 | binds each queue of the port to the last reported hardware queue of its type and number, or nothing at all when the numbers of queues differ; ids, parents and child lists stay |
| HqosBinding.SgAssociate | src/nas_qos_cps_scheduler_group.cpp:199-305 | binds, for one reported leaf-level SG after the other, an SG of the port whose packed index is its lowest child index, if there is one; nothing else changes |
| VpEffects.AssociationBindsQueues | src/nas_qos_cps_queue.cpp:841-935 | an associated queue has hardware id and shadow queues of the last report of its type and number and keeps id and parent; unreported queues and other ports stay |
| VpEffects.AssociationBindsEveryGroup | src/nas_qos_cps_scheduler_group.cpp:199-305 | associating a port that is up with readable leaf-level SGs whose lowest queue numbers are 0..ucast-1, once each, binds every SG of the port, each to the report of its own number |
| VpEffects.DissociationClears | src/nas_qos_cps_scheduler_group.cpp:160-189 | a dissociation clears hardware id and state of the port's queues and leaf-level SGs; every other field and row stays |
| VpEffects.DissociationUndoesAssociation | src/nas_qos_cps_scheduler_group.cpp:160-305 | a dissociation undoes an association exactly when that brought no shadow queues or numbers of children; everything else is always restored |
| HqosBinding.BindLinksExact | src/nas_qos_cps_queue.cpp:841-935 | an association keeps the tree well linked exactly when nothing it binds had a parent |
| HqosBinding.ReplayRepairsAssociation | src/nas_qos_cps_queue.cpp:841-970 | an association followed by an accepted set of the parent of every queue it bound, in any order, leaves the tree linked |
| HqosWitnesses.SetToVirtualPortWitness | src/nas_qos_cps_scheduler_group.cpp:833-943 | a forest and a set to a virtual port that leads out of it |
| HqosWitnesses.SetBelowDescendantWitness | src/nas_qos_cps_scheduler_group.cpp:833-943 | a forest and a set of an SG below its own child: the lists match, and the SGs go round in a circle |
| HqosWitnesses.PackedIdMovesWitness | src/nas_qos_cps_scheduler_group.cpp:833-943 | a forest and a set that leaves a packed id on another port than the one in it |
| HqosWitnesses.CreateOnVirtualPortWitness | src/nas_qos_cps_queue.cpp:276-374 | a create of a queue on a virtual port that leads out of the empty forest |
| HqosWitnesses.DeleteAcrossLinkWitness | src/nas_qos_switch_list.cpp:219-250 | a forest with a queue of one port under an SG of another: deleting either port breaks the links |
| HqosWitnesses.UnbindWitness | src/nas_qos_cps_queue.cpp:801-830 | the same forest: dissociating the queue's port leaves it listed |
| HqosWitnesses.SplitIsReached | src/nas_qos_cps_scheduler_group.cpp:761-831 | two accepted creates lead from the empty switch to that forest |
| HqosWitnesses.BindWitness | src/nas_qos_cps_queue.cpp:841-935 | a virtual port whose queue is bound under its preset parent: the parent does not list it |
| HqosWitnesses.NullParentWitness | src/nas_qos_switch.cpp:330-339 | a forest with two SGs of a virtual port: the null hardware id finds either, depending on the order of the table |
| HqosAcyclic.SetSgRootedExact | src/nas_qos_cps_scheduler_group.cpp:833-943 | a set that keeps the links keeps the tree acyclic exactly when the new parent is not below the SG |
| HqosAcyclic.RedirectKeepsRooted | src/nas_qos_cps_scheduler_group.cpp:833-943 | changing one parent keeps every SG under a root exactly when the new parent is not the SG or below it |
| HqosEffects.CreatedQueue | src/nas_qos_cps_queue.cpp:276-374 | a create adds exactly the named queue, under the requested parent only, with a newly taken id; or, when anything is missing or refused, nothing |
| HqosEffects.MovedQueueIsListed | src/nas_qos_cps_queue.cpp:376-488 | an accepted set moves the queue to the requested parent's list alone and touches no other queue |
| HqosEffects.DeletedQueue | src/nas_qos_cps_queue.cpp:490-566 | an accepted delete removes the queue, its id and its list entry, and no other queue or id |
| HqosEffects.CreatedGroup | src/nas_qos_cps_scheduler_group.cpp:761-831 | a create with every mandatory attribute adds one SG without children under the requested parent only, with a newly taken id; else nothing |
| HqosEffects.MovedGroupIsListed | src/nas_qos_cps_scheduler_group.cpp:833-943 | an accepted set to a parent other than itself moves the SG to that list alone and keeps its own children |
| HqosEffects.DeletedGroup | src/nas_qos_cps_scheduler_group.cpp:946-1023 | an accepted delete removes the SG from the table and from every list |
| HqosSteps.SetSgListsExact | src/nas_qos_cps_scheduler_group.cpp:833-943 | for every request: the child lists match after a set unless a hardware-backed SG is stored as its own parent, or is stored with another, listed parent on a virtual port |
| HqosSteps.SetSgLinksExact | src/nas_qos_cps_scheduler_group.cpp:833-943 | for every request: the tree stays well linked exactly when no hardware-backed SG is stored on a virtual port or as its own parent |
| HqosSteps.OwnParentIsListedNowhere | src/nas_qos_cps_scheduler_group.cpp:894-921 | an SG set to be its own parent keeps its stale child list and is in no list at all |
| HqosSteps.OwnParentWitness | src/nas_qos_cps_scheduler_group.cpp:894-921 | a concrete tree and request that end so |
| HqosSteps.DeletePortKeepsIffInside | src/nas_qos_switch_list.cpp:219-250 | a port deletion keeps the forest exactly when no link crosses the port's boundary |
| HqosSteps.SetQueueUndone | src/nas_qos_cps_queue.cpp:251-274 | rolling a queue's re-parenting back restores every row, and every child list up to order |
| HqosSteps.CreateQueueUndone | src/nas_qos_cps_queue.cpp:251-274 | rolling the creation of a queue back restores tree, lists and ids exactly |
| HqosSteps.DeleteQueueUndone | src/nas_qos_cps_queue.cpp:251-274 | rolling the deletion of a queue back is refused without a saved parent; else it gives the key a row under the earlier parent again, with a new id last in the parent's list and no shadow queues |
| HqosSteps.CreateSgUndone | src/nas_qos_cps_scheduler_group.cpp:737-759 | rolling the creation of an SG back restores tree, lists and ids exactly |
| HqosSteps.SetSgUndone | src/nas_qos_cps_scheduler_group.cpp:737-759 | rolling back a set of an SG's parent and profile restores every row, and every child list up to order |
| HqosEffects.SetSgUndoneExact | src/nas_qos_cps_scheduler_group.cpp:1088-1142 | for every stored set: rolling it back by its saved attributes restores the SG's row exactly when no port was given or the old port and level are the same number, and no other level was given; all else is always restored |
| HqosSteps.DeletedSgIsNeverRestored | src/nas_qos_cps_scheduler_group.cpp:1088-1142 | the saved object of a deleted SG carries no level, so the rollback's create is refused and changes nothing |
| HqosIndex.LowestChildIndex | src/nas_qos_cps_scheduler_group.cpp:69-99 | the result is the least of the children's queue numbers and formed indices, and 255 if there is none below |
| HqosReadBack.IndexIsSubtreeMinimum | src/nas_qos_cps_scheduler_group.cpp:69-158 | when all SGs are created, each local index is the minimum over everything below, found through its children's ids |
| HqosReadBack.IdCarriesSubtreeMinimum | src/nas_qos_cps_scheduler_group.cpp:117-150 | with children before parents, an id is auto-formed exactly when a queue numbered under 255 lies anywhere below, and carries the least such number; else it is a generated one |
| HqosReadBack.DisjointCoverIsDistinct | src/nas_qos_cps_scheduler_group.cpp:102-158 | SGs of one level that cover disjoint sets of queue numbers have distinct minima |
| HqosReadBack.DistinctMeansFresh | src/nas_qos_cps_scheduler_group.cpp:117-150 | with distinct minima and none of their ids taken before, the id formed for the next SG is not in the table, so the duplicate exception cannot fire |
| HqosReadBack.CreatedExactly | src/nas_qos_cps_scheduler_group.cpp:102-158 | every readable SG with a packed index is created exactly when its id was not there at the start and no SG created before it has its level and index; an unreadable one never is |
| HqosReadBack.NoGroupsNoneTaken | inc/opx/nas_qos_common.h:69-78 | packed ids being on their own ports, a port without SGs has none of its ids taken by any other port |
| HqosReadBack.CreatedMeansDistinct | src/nas_qos_switch.cpp:360-371 | conversely, if every SG was created the minima were distinct |
| HqosReadBack.CreatedMeansNoneTaken | src/nas_qos_switch.cpp:360-371 | if every SG was created, none of the ids was taken before |
| HqosBoot.ReversedParentsFirst | src/nas_qos_cps_scheduler_group.cpp:352-385 | walking a report backwards meets children first exactly when it lists parents first |
| HqosBoot.CreatePortSchedGroup | src/nas_qos_cps_scheduler_group.cpp:102-158 | creates the SG under the id its lowest child gives; fails exactly on a packed id already present or a dry generator |
| HqosBoot.CreatePortSchedGroups | src/nas_qos_cps_scheduler_group.cpp:334-386 | each readable SG is created exactly when its packed id is free at its turn, and an SG without an index as long as the generator has ids, whatever happens to the others; unless it runs dry all are created exactly when all are readable, minima are distinct per level, and none of their ids was taken |
| HqosLinking.LinkNode | src/nas_qos_cps_scheduler_group.cpp:397-458 | links one node to the SG owning its recorded hardware parent, or fails leaving the tree alone when the node is missing |
| HqosLinking.SetupHierarchy | src/nas_qos_cps_scheduler_group.cpp:388-462 | whatever the walk order, each listed node is linked once, to the owner of its recorded hardware parent; it fails only on a missing node |
| HqosLinking.HierarchyIsExact | src/nas_qos_cps_scheduler_group.cpp:388-462 | afterwards every walked node's parent is the SG its recorded hardware parent leads to, and each list holds exactly the nodes naming it |
| HqosLinking.WalkOrderIsIrrelevant | src/nas_qos_cps_scheduler_group.cpp:388-462 | two complete walks of the parent map lead to the same tree up to the order within child lists |
| HqosLinking.TableOrderIsIrrelevantExact | src/nas_qos_switch.cpp:330-339 | the SG found for a recorded parent does not depend on the order of the table, exactly when the id is not null or at most one SG could match the null id |
| HqosLinking.NullParentIsRootIffAllBacked | src/nas_qos_switch.cpp:330-339 | the null hardware parent means no parent exactly when every SG in the table is hardware-backed |
| HqosLinking.ReadBackKeepsLinked | src/nas_qos_cps_scheduler_group.cpp:334-386 | reading the SGs back keeps the tree well linked |
| HqosQueues.PortQueueInit | src/nas_qos_cps_queue.cpp:1020-1110 | every reported queue of a known type gets one new row under its hardware number or untyped position, with its hardware id and shadows, and its recorded parent listed under its id, and nothing else is added; it stops short only at a full generator or a key already taken |
| HqosQueues.NumberByHardwareOrRank | src/nas_qos_cps_queue.cpp:1062-1092 | a unicast or multicast queue is numbered by the hardware, an untyped one by how many untyped ones were reported before it |
| HqosPort.PortHqosInit | src/nas_qos_cps_scheduler_group.cpp:509-582 | refuses a port with queues or SGs unchanged; on success with SGs every reported queue of a known type is in the table under the SG owning its recorded parent, and, unless the generator ran dry, with all SGs readable and minima distinct so is every SG, under the id of its subtree minimum; the links hold whatever fails |
| HqosPort.CompletedBringUp | src/nas_qos_cps_scheduler_group.cpp:509-582 | on success, unless the generator ran dry, all SGs are up exactly when all are readable and minima are distinct |
| HqosPort.BringUpKeeps | src/nas_qos_cps_scheduler_group.cpp:509-582 | however far it gets, a bring-up keeps the links, distinct hardware ids, and packed ids on their own port |
| HqosPort.LinkPort | src/nas_qos_cps_scheduler_group.cpp:388-462 | linking what was read always succeeds, for every listed node |
| VpQueues.TranslationUndoesEnumeration | src/nas_qos_map_entry.cpp:266-289 | translating the type and number of an enumerated queue gives its flat index |
| VpQueues.MulticastTranslationWraps | src/nas_qos_map_entry.cpp:266-289 | two multicast numbers are translated alike exactly when they are equal as 32-bit words |
| VpQueues.EnumerationUndoesTranslation | src/nas_qos_cps_queue.cpp:980-1004 | a type and number enumerate back from their translation exactly when they are those of a queue of the port |
| VpQueues.DefaultIsNumberZero | src/nas_qos_map_entry.cpp:291-314 | the default queue of a type is its queue of number 0 |
| VpQueues.ParentsExistIffMulticastFits | src/nas_qos_cps_scheduler_group.cpp:475-501 | every preset parent is an SG created for the port exactly when multicast queues do not outnumber unicast ones |
| PortLifecycle.QueueInitVp | src/nas_qos_cps_queue.cpp:973-1015 | adds the port's queues in enumeration order, without hardware side and with preset parents, taking one id each, and stops only on a full generator or a key already there |
| PortLifecycle.SgInitVp | src/nas_qos_cps_scheduler_group.cpp:464-507 | adds one SG per unicast queue number, without hardware side, parent and child, failing only if the port already had SGs |
| PortLifecycle.PgInitVp | src/nas_qos_cps_priority_group.cpp:635-670 | adds eight unbound PGs, taking one id each, and stops only on a full generator or a key already there |
| PortLifecycle.IngressInitVp | src/nas_qos_cps_port_ingress.cpp:283-314 | the new node lists the ids of the port's PGs in key order |
| PortLifecycle.EgressInitVp | src/nas_qos_cps_port_egress.cpp:209-245 | the new node lists the ids of the port's queues in key order, and counts them by type as bytes |
| PortLifecycle.HqosInitVp | src/nas_qos_cps_scheduler_group.cpp:509-543 | brings up all queues and SGs of a port that had none, unbound, the queues under their preset parents, and takes exactly the queues' ids; refuses any other port unchanged |
| PortLifecycle.IfCreateNotify | src/nas_qos_switch_list.cpp:260-319 | a ready port is left exactly as it is; for any other, rows that were there stay; missing ones are added in full - queues under preset parents, SGs unlinked, PGs without profile, all unbound - and, unless a generator runs dry, exactly their ids are taken; a node that was there stays and a missing one lists the current rows; other ports are untouched |
| PortLifecycle.CreatedNodesMatch | src/nas_qos_switch_list.cpp:295-316 | the nodes match their rows after a create exactly when they did before and neither was there before its rows |
| PortLifecycle.IfDissociateNotify | src/nas_qos_switch_list.cpp:363-378 | queues and SGs stay, only their hardware side cleared; PGs are replaced by unbound ones without profile, the earlier ids given back and exactly the new ones taken; both nodes are made anew and list the current queues and PGs, whatever was there before; other ports are untouched |
| PortLifecycle.IfDeleteNotify | src/nas_qos_switch_list.cpp:219-250 | nothing of the port is left, other ports are untouched, and the ids stay in step |
| PortLifecycle.RunNotifications | src/nas_qos_switch_list.cpp:219-384 | over every run of notifications in any order, up to exhaustion, each virtual port is in the phase its history says: gone, only PGs and nodes, fully up, or up with a stale egress node |
| PortLifecycle.DissociatedFirstGoesStale | src/nas_qos_switch_list.cpp:295-378 | dissociating a port that is not there and then creating it leaves it stale until it is dissociated again or deleted |
| PortLifecycle.SensibleRunsAreUp | src/nas_qos_switch_list.cpp:219-384 | if only created ports are dissociated, created ports are fully up and the others gone |
| VpTables.PgListIsDetermined | src/nas_qos_switch.cpp:582-602 | a PG id list is determined by the port's PGs, complete and free of duplicates |
| VpTables.QueueListIsDetermined | src/nas_qos_switch.cpp:200-219 | the same for queue id lists |
| VpTables.ReadyCounts | src/nas_qos_cps_port_egress.cpp:230-233 | a ready port's egress node counts its unicast and multicast queues modulo 256 |
| VpTables.ReadyParentsIffMulticastFits | src/nas_qos_cps_scheduler_group.cpp:475-501 | every queue of a ready port has its parent in the table, on the port, exactly when multicast queues do not outnumber unicast ones |
| VpEffects.ReadyRows | src/nas_qos_cps_scheduler_group.cpp:464-507 | a ready port has exactly unicast queues 0..ucast-1 and the multicast ones up to the total, each under the SG of its number; exactly the SGs whose ids pack port, leaf level and numbers 0..ucast-1, each stored at that level without parent, child, profile or hardware side; and PGs 0..7 |
| ProfileTables.StepKeepsInStep | src/nas_qos_cps_wred.cpp:237-443 | one create, update or delete, accepted or refused, keeps generator and table in step |
| ProfileTables.InStepInEveryRun | src/nas_qos_switch.cpp:71-94 | over every run, failed operations included, the ids in use are the keys of the table, so the duplicate exception of add is unreachable |
| ProfileTables.ProfileStore.Create | src/nas_qos_cps_wred.cpp:255-305 | the id is taken first and given back on every failure, so afterwards either the row is added under an id in use or nothing has changed |
| ProfileTables.ProfileStore.Delete | src/nas_qos_cps_wred.cpp:380-443 | removes the row and its id, or changes nothing |
| WredProfiles.ParseAttrs | src/nas_qos_cps_wred.cpp:466-610 | applies the request in order to the local copy, failing exactly on an unknown attribute |
| WredProfiles.LastSettingWins | src/nas_qos_cps_wred.cpp:466-610 | an attribute reads back the last value requested for it, the deprecated ECN flag counting as a request for the mark mode |
| WredProfiles.ReplayRestores | src/nas_qos_cps_wred.cpp:613-653 | storing and parsing are inverse: replaying saved attributes, in any order, restores the configuration on any row that differs only in them |
| WredProfiles.CfgExtensional | src/nas_qos_wred.cpp:55-173 | the stored attributes, alias excluded, determine the whole configuration |
| WredUndo.StorePrevAttrs | src/nas_qos_cps_wred.cpp:613-653 | saves each attribute with its value, one setting per NPU, in any order |
| WredUndo.WredCreate | src/nas_qos_cps_wred.cpp:237-310 | table, generator and outcome afterwards are those of the create step that the undo theorems are about |
| WredUndo.WredSet | src/nas_qos_cps_wred.cpp:312-377 | the same for a set: one row replaced by the parsed copy, or nothing |
| WredUndo.WredDelete | src/nas_qos_cps_wred.cpp:380-443 | the same for a delete: row and id gone, or nothing |
| WredEffects.SetTakesEffect | src/nas_qos_cps_wred.cpp:312-377 | a set is refused exactly for an unknown profile or attribute or by the hardware, changing nothing; else every field is the last value requested for it or stays, the requested NPUs are added, and no other row or id changes |
| WredEffects.CreateTakesEffect | src/nas_qos_cps_wred.cpp:237-310 | a create adds one profile under the named or generated id up to 500, each field the last value requested or zero, and exactly the requested NPUs; refused, nothing changes |
| WredEffects.DeleteTakesEffect | src/nas_qos_cps_wred.cpp:380-443 | a delete removes exactly the named profile and id, or nothing |
| WredEffects.SetReadsBack | src/nas_qos_cps_wred.cpp:312-377 | after an accepted set each attribute reads back from the table the last value requested under it |
| WredEffects.FlagReadsBack | src/nas_qos_wred.cpp:55-173 | the deprecated ECN flag then reads 1 exactly when the last mode requested is all |
| WredUndo.ApplyKeepsGood | src/nas_qos_cps_wred.cpp:237-443 | generator and table stay in step and attributes never set stay zero |
| WredUndo.UndoSet | src/nas_qos_cps_wred.cpp:213-235 | rolling a set back restores every field, the mark mode behind the deprecated ECN flag included; everything exactly when the request added no NPU |
| WredUndo.UndoDelete | src/nas_qos_cps_wred.cpp:213-235 | rolling a delete back restores profile and id |
| WredUndo.UndoCreate | src/nas_qos_cps_wred.cpp:213-235 | rolling a create back restores table and generator |
| WredUndo.TransactionUndone | src/nas_qos_cps_wred.cpp:213-443 | rolling back any sequence of successful requests that adds no NPU to an existing profile, last first, restores table and ids in use |
| WredUndo.FailedTransactionLeavesNoTrace | src/nas_qos_cps_wred.cpp:213-443 | so a sequence whose last request fails is undone completely |
| SchedulerProfiles.ParseAttrs | src/nas_qos_cps_scheduler.cpp:429-504 | applies the request in order to the local copy, failing exactly on an unknown attribute |
| SchedulerProfiles.ParseSetsWeight | inc/opx/nas_qos_scheduler.h:132-146 | the weight after a request: 0 if strict priority is set with no weight after it, else the last weight, else unchanged |
| SchedulerProfiles.StorePrevAttrs | src/nas_qos_cps_scheduler.cpp:507-576 | saves each attribute once with its value, in any order |
| SchedulerProfiles.SchedulerCreate | src/nas_qos_cps_scheduler.cpp:216-291 | table, generator and outcome afterwards are those of the create step that the undo theorems are about |
| SchedulerProfiles.SchedulerSet | src/nas_qos_cps_scheduler.cpp:293-357 | the same for a set: one row replaced by the parsed copy, or nothing |
| SchedulerProfiles.SchedulerDelete | src/nas_qos_cps_scheduler.cpp:360-425 | the same for a delete: row and id gone, or nothing |
| SchedulerEffects.SetTakesEffect | src/nas_qos_cps_scheduler.cpp:293-357 | a set is refused exactly for an unknown profile or attribute or by the hardware, changing nothing; else every field is the last value requested for it or stays, strict priority asking for weight 0, and no other row or id changes |
| SchedulerEffects.CreateTakesEffect | src/nas_qos_cps_scheduler.cpp:216-291 | a create adds one profile under the named or generated id up to 4000, each field the last value requested or zero; refused, nothing changes |
| SchedulerEffects.DeleteTakesEffect | src/nas_qos_cps_scheduler.cpp:360-425 | a delete removes exactly the named profile and id, or nothing |
| SchedulerProfiles.SetUndone | src/nas_qos_cps_scheduler.cpp:293-357 | rolling a set back restores every field but the weight for all requests; the weight after replaying one given saved object |
| SchedulerProfiles.WeightRestoredExact | src/nas_qos_cps_scheduler.cpp:293-357 | whatever is saved in whatever order, the weight is restored exactly when it was 0, or the profile was not strict priority and the request does not set strict priority without a weight |
| SchedulerProfiles.WeightIsLost | inc/opx/nas_qos_scheduler.h:132-140 | setting a weighted profile to strict priority and rolling back restores the algorithm and leaves the weight at 0 |
| SchedulerProfiles.SetUndoneWithoutSp | src/nas_qos_cps_scheduler.cpp:293-357 | everything is restored when neither the request nor the earlier algorithm is strict priority |
| SchedulerProfiles.WeightCanBeLost | inc/opx/nas_qos_scheduler.h:132-140 | so does changing a weighted strict-priority profile, when its weight is saved before its algorithm |
| SchedulerProfiles.TransactionUndone | src/nas_qos_cps_scheduler.cpp:216-425 | rolling back any sequence of successful requests restores ids and every field but weights, and the weights too when each request on its own would restore them |
| QosMaps.AllocationByType | src/nas_qos_switch.cpp:1047-1061 | takes the least free local id in 1..126 of the type and nothing of another type; fails exactly when all 126 are in use |
| QosMaps.MapStore.AllocMapIdByType | src/nas_qos_switch.cpp:1047-1061 | the loop returns that id and adds only it to the ids in use |
| QosMaps.EntryKeySplits | src/nas_qos_map_util.cpp:480-578 | for the five types with two key attributes: they are reported back as given exactly when they fit their fields |
| QosMaps.EntryKeyIsOk | src/nas_qos_cps_map_entry.cpp:986-1075 | every key a request forms is reported by attributes that form it again |
| QosMaps.GetEntryKey | src/nas_qos_map_util.cpp:480-578 | reads the key a request names, or fails exactly on a missing attribute: of two for the five types of two, else of the first |
| QosMaps.FillEntryKeyData | src/nas_qos_cps_map_entry.cpp:986-1075 | splits a key into the attributes that name it |
| QosMapEffects.TwoPartKey | src/nas_qos_map_util.cpp:508-565 | for TC-to-queue, both TC-and-colour types, PG-to-PFC and PFC-to-queue there is a key exactly when both attributes are given: the second, cut to sixteen bits or a PFC priority's byte, above the first's byte |
| QosMapEffects.OnePartKey | src/nas_qos_map_util.cpp:498-506 | for the other five the first attribute's byte is the key and the second is ignored |
| QosMapEffects.DifferentRequestsDiffer | src/nas_qos_map_util.cpp:508-565 | requests in range that differ in either attribute have different keys |
| QosMaps.MapStore.Create | src/nas_qos_cps_map_entry.cpp:372-485 | takes an unspecified or named id, commits and adds, or gives the id back |
| QosMaps.MapStore.Delete | src/nas_qos_cps_map_entry.cpp:604-678 | refuses a map that still has entries; else removes row and id |
| QosMaps.MapStore.AddMapEntry | src/nas_qos_map.cpp:96-165 | inserts a new key, overwrites only the one value of an existing entry |
| QosMaps.MapStore.CreateMapEntry | src/nas_qos_cps_map_entry.cpp:426-463 | refuses a missing map, value or queue type; else adds the entry |
| QosMaps.MapStore.DeleteMapEntry | src/nas_qos_cps_map_entry.cpp:680-703 | refuses a missing entry; else erases only that key |
| QosMapRuns.OverwriteIsReplace | src/nas_qos_map.cpp:122-159 | in a reachable map, overwriting one value in place leaves the same entry as replacing it |
| QosMapRuns.MapsOkInEveryRun | src/nas_qos_cps_map_entry.cpp:329-722 | over every run, refused operations included: ids in use are the table's keys, every id carries its map's type, every entry sits under its own key |
| QosMapRuns.FoundMapHasType | src/nas_qos_cps_map_entry.cpp:435-440 | the type-mismatch error is unreachable |
| QosMapRuns.OnlyTheNamedEntryChanges | src/nas_qos_map.cpp:96-181 | an entry create or delete changes exactly the named entry of the named map; map create and delete touch no entry |
| QosMapEffects.CreateEntryTakesEffect | src/nas_qos_cps_map_entry.cpp:426-463 | a create is refused exactly for a missing map, key or value (but for PG-to-PFC), an unknown queue type or by the hardware, changing nothing; else the entry holds the value in the one field of its type, cut to its width, and every other entry of every map stays |
| QosMapEffects.OtherSecondAttributeStays | src/nas_qos_map_util.cpp:508-565 | creating an entry leaves what a request with another colour, queue type or PFC priority finds |
| QosMapEffects.DeleteEntryTakesEffect | src/nas_qos_cps_map_entry.cpp:680-703 | a delete is refused exactly for a missing map or entry or by the hardware; else exactly that entry goes |
| QosMapEffects.CreateMapTakesEffect | src/nas_qos_cps_map_entry.cpp:372-425 | a create adds one empty map of the type, under the local id given or the least free one, refused exactly when it names an entry, no such id is free or the hardware refuses |
| QosMapEffects.DeleteMapTakesEffect | src/nas_qos_cps_map_entry.cpp:640-678 | a delete removes a map and its id, refused exactly for an unknown one, one with entries or by the hardware |
| QosMapRuns.FillMatching | src/nas_qos_cps_map_entry.cpp:853-890 | the loop collects the matching entries in walk order |
| QosMapRuns.ScanCollects | src/nas_qos_cps_map_entry.cpp:853-890 | and these are all matching entries the walk visits, and no others |
| QosMapRuns.ScanIsLookup | src/nas_qos_cps_map_entry.cpp:853-890 | in every reachable map the linear scan finds exactly what the hash lookup finds, whatever the walk order |
| QosMapRuns.UndoRestores | src/nas_qos_cps_map_entry.cpp:306-327 | undoing a map or entry operation restores the tables exactly, unless it is the create of an entry over an existing one |
| QosMapRuns.OverwriteIsNotUndone | src/nas_qos_cps_map_entry.cpp:306-327 | such a create exists, and undoing it loses the earlier entry |
| QosMapRuns.TransactionUndone | src/nas_qos_cps_map_entry.cpp:306-327 | rolling back any sequence of successful operations that overwrites no entry, last first, restores the tables exactly |
| QueueStats.QueueStatWalk | src/nas_qos_cps_queue.cpp:1423-1498 | the wildcard loop with its two flags makes exactly the calls of the specification |
| QueueStatReads.WalkIsWarranted | src/nas_qos_cps_queue.cpp:1216-1250 | every hardware call of a wildcard read is of a selected queue of a hardware port, on a requested MMU it is present on, touches snapshot counters only with support and clears only those |
| QueueStats.AtMostTwoSyncs | src/nas_qos_cps_queue.cpp:1423-1498 | at most two syncs succeed per request, whatever the hardware answers |
| QueueStatReads.EverythingAskedIsRead | src/nas_qos_cps_queue.cpp:1465-1496 | when the hardware accepts, every read asked for is made, of every selected queue on every MMU it is present on |
| QueueStatReads.AskedIsReadExact | src/nas_qos_cps_queue.cpp:1423-1498 | whatever the hardware answers, a read asked for is made exactly when neither the sync of its own queue failed nor, in a request for both kinds, the plain read before it |
| QueueStatReads.NothingIsCalledTwice | src/nas_qos_cps_queue.cpp:1423-1498 | no hardware call is made twice in a wildcard read, whatever the hardware answers |
| QueueStatReads.NoSyncIsNeedless | src/nas_qos_cps_queue.cpp:1446-1462 | no queue is synced whose type a successful sync already covers |
| QueueStatReads.NamedQueueIsRead | src/nas_qos_cps_queue.cpp:1394-1420 | a request that names one queue makes calls of it alone, on the MMU asked for: one plain read, or with the snapshot flag one sync and then, unless that failed, one read that clears; none at all for a queue that is missing, virtual or absent, or without snapshot support |
| QueueStatReads.NamedQueueIsReadLast | src/nas_qos_cps_queue.cpp:1394-1420 | so with accepting hardware the last call reads the named queue, clearing its snapshot counters if asked |
| QueueStats.SyncedWhateverTheHardware | src/nas_qos_cps_queue.cpp:1423-1498 | every read-and-clear follows a successful sync covering its type, for all hardware answers, exactly when no present queue finds its sync taken by an absent one |
| QueueStats.SyncedWhenAllPresent | src/nas_qos_cps_queue.cpp:1423-1498 | so it holds for known types on MMU 0 or when every selected queue is on the MMU |
| QueueStats.ExactReadSynced | src/nas_qos_cps_queue.cpp:1394-1420 | a request that names one queue reads and clears only after a successful sync; which calls it makes is NamedQueueIsRead |
| QueueStats.AbsentQueueTakesTheSync | src/nas_qos_cps_queue.cpp:1238-1244 | two queues, the first absent from the MMU: the second is read and cleared with no sync |
| InitScript.ReadSchedGrp | scripts/bin/base_qos_init.py:418-442 | each reported level gets all its ids, as a multiset, in ascending order |
| InitScript.ReportOrderIsIrrelevant | scripts/bin/base_qos_init.py:418-442 | the order of the reports does not change the lists |
| InitScript.AscendingByIndex | scripts/bin/base_qos_init.py:434-437 | for one port, a level's list holds first the generated ids, then the auto-formed ones strictly ascending by local index, with exactly the reported indices |
| InitScript.PositionIsRank | scripts/bin/base_qos_init.py:414-415 | with g generated ids on a level, position g + n is the SG with exactly n smaller indices, and earlier positions hold the generated ids |
| InitScript.PositionIsIndex | scripts/bin/base_qos_init.py:414-415 | when the indices are 0..k-1, position g + n is the SG of index n, and there is none from g + k on |
| InitScript.PositionsAreIndicesExact | scripts/bin/base_qos_init.py:414-415 | when the indices are 0..k-1, each position below k holds the SG of that index exactly when no id of the level was generated |

## Left out

- CPS object encoding, event publication, the CPS database and the replay of its records after an association or dissociation, logging, handler registration and dispatch.
- Hardware calls beyond success and returned ids, and counter values.
- `base_obj_t` and `nas::id_generator_t` themselves, which are not part of this repository: their contracts are assumed as described above.
- The operation code carried by a saved object: each is assumed to be replayed by the inverse operation.
- Interface indices are natural numbers; the signed comparison of negative ones is not modelled.
- Association of a virtual port's PGs and port nodes, which read PGs and queues before they are bound to hardware; that of queues and SGs is modelled up to the sets replayed from the stored configuration, which are requests like any other.
- The time between a change of a port's mapping and its notification: the port changes its kind with the notification.
- Whether the hardware refuses creates on virtual ports: its answer is left open.
- Re-parenting on virtual ports beyond the row itself: child lists are deliberately not kept there.
- Undo of port ingress and egress, which replays the change list.
- The NPU list and the name of scheduler profiles, maps and SGs; for WRED, NPU lists are modelled and names are not.
- In-place set of a map entry and of a map's name, and reads of the PG-to-PFC map.
- Policers, buffer pools, buffer profiles and port pools, which repeat the pattern of the profile tables.
- The numbers of the map types, which belong to the hardware interface's header: only that they differ and stay below 16 is used.
- XML parsing, CPS transactions and speed names in the Python code.
- Exact conservation of queue and PG ids when an internal create fails, which drops the id: only that live ids are distinct and in use.
- HqosLinking.WalkOrderIsIrrelevant: both walks search the SG table in one order, which cannot change while no key is added; what another order could change is stated by TableOrderIsIrrelevantExact.
- HqosPort.PortHqosInit: assumes of the hardware that the ids it reports are not null and not in use, and that no SG reports itself as parent.
- HqosSound.BringUpKeepsForest: assumes that the parents the hardware records for the SGs of a port go round in no circle.
- HqosBinding.SgAssociate: assumes of the hardware that the ids it reports are not null and not in use.
- QueueStats.SyncedWhateverTheHardware: a sync made without the snapshot flag, as in a request without a snapshot attribute, counts as a sync.
