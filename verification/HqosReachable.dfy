/**
 Runs from the empty switch, over all operations and over creation, bring-up, dissociation and deletion
 of ports: in which of them every state is a forest, and what holds in all of them.
 */
module HqosReachable {
  import opened Wrappers
  import opened NasIds
  import opened IdGenerator
  import opened OrderedKeys
  import opened QosRows
  import opened QosSwitches
  import opened HqosForest
  import opened HqosSteps
  import opened HqosIndex
  import opened HqosBoot
  import opened HqosLinking
  import opened HqosQueues
  import opened HqosPort
  import opened HqosVirtual
  import opened HqosBinding
  import opened HqosSound
  import VpQueues
  import VpTables

  /** The tree, and which ports are virtual. */
  datatype State = State(tree: Tree, virt: set<nat>)

  datatype Move =
    | CreateQueueMove(key: Key, queueParent: Option<NasId>, o: Outside)
    | SetQueueMove(key: Key, queueParent: Option<NasId>, o: Outside)
    | DeleteQueueMove(key: Key, o: Outside)
    | CreateSgMove(r: SgRequest, o: Outside)
    | SetSgMove(id: NasId, r: SgRequest, o: Outside)
    | DeleteSgMove(id: NasId, o: Outside)
    | BringUpMove(port: nat, queueReport: seq<HwQueue>, groupReport: seq<HwSg>, rc: bool, b: Course)
    | CreateVpMove(port: nat)
    | BindMove(port: nat, newQueues: set<Key>, newGroups: set<NasId>)
    | UnbindMove(port: nat)
    | DeletePortMove(port: nat)

  /**
   A request, accepted or refused, a rollback or a notification takes s to s'. A create notification
   goes by whether the port is virtual; an associated port is physical from then on and a dissociated
   one virtual, and the number of a deleted port may come back as either kind. The sets an association
   replays from the stored configuration are moves of their own.
   */
  ghost predicate Takes(s: State, sh: VpQueues.Shape, m: Move, s': State) {
    match m
    case DeletePortMove(port) => s'.tree == DeletePort(s.tree, port) && s'.virt - {port} == s.virt - {port}
    case BindMove(port, newQueues, newGroups) =>
      && Binds(s.tree, s'.tree, port, sh.leaf) && s'.virt == s.virt - {port}
      && newQueues == (set k | k in s.tree.queues && !s.tree.queues[k].created && s'.tree.queues[k].created)
      && newGroups == (set g | g in s.tree.sgs && !s.tree.sgs[g].created && s'.tree.sgs[g].created)
    case UnbindMove(port) => Unbinds(s.tree, s'.tree, port, sh.leaf) && s'.virt == s.virt + {port}
    case CreateVpMove(port) => port in s.virt && CreatesVp(s.tree, s'.tree, sh, port) && s'.virt == s.virt
    case BringUpMove(port, queueReport, groupReport, rc, b) =>
      port !in s.virt && BringsUp(s.tree, port, queueReport, groupReport, rc, b, s'.tree) && s'.virt == s.virt
    case _ => s'.tree == Requested(s.tree, s.virt, m) && s'.virt == s.virt
  }

  function Requested(t: Tree, virt: set<nat>, m: Move): Tree {
    match m
    case CreateQueueMove(key, parent, o) => CreateQueue(t, key, parent, o)
    case SetQueueMove(key, parent, o) => SetQueue(t, virt, key, parent, o)
    case DeleteQueueMove(key, o) => DeleteQueue(t, key, o)
    case CreateSgMove(r, o) => CreateSg(t, r, o)
    case SetSgMove(id, r, o) => SetSg(t, virt, id, r, o)
    case DeleteSgMove(id, o) => DeleteSg(t, id, o)
    case _ => t
  }

  /** What is assumed of the hardware and of the ranges of its numbers; u is the tree after the move. */
  ghost predicate Honest(t: Tree, sh: VpQueues.Shape, m: Move, u: Tree) {
    match m
    case BindMove(_, _, _) => HwIdsDistinct(u.queues, u.sgs)
    case CreateQueueMove(_, _, o) => NewQueueNdi(t, o.ndi)
    case CreateSgMove(_, o) => NewSgNdi(t, o.ndi)
    case BringUpMove(port, queueReport, groupReport, _, _) =>
      NoHqos(t, port) ==>
        SanePort(t.queues, t.sgs, port, queueReport, groupReport) && HwAcyclic(Reversed(groupReport))
    case CreateVpMove(port) => VpTables.PackableShape(port, sh)
    case _ => true
  }

  /** What the forest asks of a move; each condition can be checked before it. */
  ghost predicate Sound(s: State, sh: VpQueues.Shape, m: Move) {
    match m
    case CreateQueueMove(key, parent, o) => CreateQueue(s.tree, key, parent, o) == s.tree || key.port !in s.virt
    case CreateSgMove(r, o) => CreateSg(s.tree, r, o) == s.tree || Given(r.port, 0) !in s.virt
    case SetSgMove(id, r, o) => SetIsSound(s.tree, s.virt, id, r, o)
    case BindMove(_, newQueues, newGroups) =>
      && (forall k :: k in newQueues && k in s.tree.queues ==> s.tree.queues[k].parent == 0)
      && (forall g :: g in newGroups && g in s.tree.sgs ==> s.tree.sgs[g].parent == 0)
    case UnbindMove(port) => NothingHeld(s.tree, port, sh.leaf) && UpperUnbacked(s.tree, port, sh.leaf)
    case DeletePortMove(port) => EdgesInside(s.tree, port)
    case _ => true
  }

  /** A move from a forest leads to a forest exactly when it is sound. */
  lemma MoveKeepsForestExact(s: State, sh: VpQueues.Shape, m: Move, s': State)
    requires Forest(s.tree, s.virt) && Honest(s.tree, sh, m, s'.tree) && Takes(s, sh, m, s')
    ensures Forest(s'.tree, s'.virt) <==> Sound(s, sh, m)
  {
    match m {
      case CreateQueueMove(key, parent, o) => CreateQueueKeepsForestExact(s.tree, s.virt, key, parent, o);
      case SetQueueMove(key, parent, o) => SetQueueKeepsForest(s.tree, s.virt, key, parent, o);
      case DeleteQueueMove(key, o) => DeleteQueueKeepsForest(s.tree, s.virt, key, o);
      case CreateSgMove(r, o) => CreateSgKeepsForestExact(s.tree, s.virt, r, o);
      case SetSgMove(id, r, o) => SetSgKeepsForestExact(s.tree, s.virt, id, r, o);
      case DeleteSgMove(id, o) => DeleteSgKeepsForest(s.tree, s.virt, id, o);
      case BringUpMove(port, queueReport, groupReport, rc, b) =>
        BringUpKeepsForest(s.tree, s.virt, port, queueReport, groupReport, rc, b, s'.tree);
      case CreateVpMove(port) => CreateVpKeepsForest(s.tree, s.virt, sh, port, s'.tree);
      case BindMove(port, _, _) => BindKeepsForestExact(s.tree, s.virt, port, sh.leaf, s'.tree);
      case UnbindMove(port) => UnbindKeepsForestExact(s.tree, s.virt, port, sh.leaf, s'.tree);
      case DeletePortMove(port) => DeletePortKeepsForestExact(s.tree, s.virt, port, s'.virt);
    }
  }

  /** The states before and after each move, from the empty switch on. */
  ghost predicate IsRun(sh: VpQueues.Shape, moves: seq<Move>, states: seq<State>) {
    && |states| == |moves| + 1 && states[0].tree == EMPTY_TREE
    && forall i :: 0 <= i < |moves| ==> MoveAt(sh, moves[i], states, i)
  }

  ghost predicate MoveAt(sh: VpQueues.Shape, m: Move, states: seq<State>, i: nat) {
    i + 1 < |states| && Honest(states[i].tree, sh, m, states[i + 1].tree) && Takes(states[i], sh, m, states[i + 1])
  }

  ghost predicate SoundAt(sh: VpQueues.Shape, m: Move, states: seq<State>, i: nat) {
    i < |states| && Sound(states[i], sh, m)
  }

  ghost predicate ForestAt(states: seq<State>, i: nat) {
    i < |states| && Forest(states[i].tree, states[i].virt)
  }

  lemma {:induction false} SoundRunIsForest(sh: VpQueues.Shape, moves: seq<Move>, states: seq<State>, n: nat)
    requires IsRun(sh, moves, states) && n <= |moves|
    requires forall i :: 0 <= i < n ==> SoundAt(sh, moves[i], states, i)
    ensures ForestAt(states, n)
    decreases n
  {
    if n == 0 {
      EmptyTreeIsForest(states[0].virt);
    } else {
      SoundRunIsForest(sh, moves, states, n - 1);
      assert MoveAt(sh, moves[n - 1], states, n - 1) && SoundAt(sh, moves[n - 1], states, n - 1);
      MoveKeepsForestExact(states[n - 1], sh, moves[n - 1], states[n]);
    }
  }

  /**
   A run from the empty switch, over any mix of requests, accepted and refused, rollbacks, bring-ups,
   creations, associations and dissociations of virtual ports and port deletions, goes through forests
   only, exactly when each of its moves is sound.
   */
  lemma ForestInEveryRun(sh: VpQueues.Shape, moves: seq<Move>, states: seq<State>)
    requires IsRun(sh, moves, states)
    ensures (forall n :: 0 <= n <= |moves| ==> ForestAt(states, n))
       <==> (forall i :: 0 <= i < |moves| ==> SoundAt(sh, moves[i], states, i))
  {
    if forall i :: 0 <= i < |moves| ==> SoundAt(sh, moves[i], states, i) {
      forall n | 0 <= n <= |moves| ensures ForestAt(states, n) {
        SoundRunIsForest(sh, moves, states, n);
      }
    }
    if forall n :: 0 <= n <= |moves| ==> ForestAt(states, n) {
      forall i | 0 <= i < |moves| ensures SoundAt(sh, moves[i], states, i) {
        assert ForestAt(states, i) && ForestAt(states, i + 1) && MoveAt(sh, moves[i], states, i);
        MoveKeepsForestExact(states[i], sh, moves[i], states[i + 1]);
      }
    }
  }

  // ---- What holds in every run, sound or not ----

  lemma CreateQueueKeepsIds(t: Tree, key: Key, parent: Option<NasId>, o: Outside)
    requires TreeIdsOk(t)
    ensures TreeIdsOk(CreateQueue(t, key, parent, o))
  {
    var u := CreateQueue(t, key, parent, o);
    if u != t {
      var row := Queue(QueueIdOf(o.choice), parent.value, o.ndi, true, []);
      NewQueueKeepsIds(t.queues, t.queueIds, key, row, o.choice);
      SameSgIds(t.sgs, u.sgs, t.sgIds);
    }
  }

  lemma SameSgIds(a: map<NasId, SchedGroup>, b: map<NasId, SchedGroup>, ids: set<nat>)
    requires SgIdsOk(a, ids) && b.Keys <= a.Keys
    ensures SgIdsOk(b, ids)
  {}

  lemma SetQueueKeepsIds(t: Tree, virt: set<nat>, key: Key, parent: Option<NasId>, o: Outside)
    requires TreeIdsOk(t)
    ensures TreeIdsOk(SetQueue(t, virt, key, parent, o))
  {
    var u := SetQueue(t, virt, key, parent, o);
    SetQueueShape(t, virt, key, parent, o);
    forall k | k in t.queues ensures u.queues[k].id == t.queues[k].id {
      assert u.queues[k].(parent := t.queues[k].parent) == t.queues[k];
    }
    SameIdsOk(t, u);
  }

  lemma DeleteQueueKeepsIds(t: Tree, key: Key, o: Outside)
    requires TreeIdsOk(t)
    ensures TreeIdsOk(DeleteQueue(t, key, o))
  {
    var u := DeleteQueue(t, key, o);
    if u != t {
      OneQueueGone(t.queues, t.queueIds, key);
      SameSgIds(t.sgs, u.sgs, t.sgIds);
    }
  }

  lemma OneQueueGone(queues: map<Key, Queue>, inUse: set<nat>, key: Key)
    requires QueueIdsOk(queues, inUse) && key in queues
    ensures QueueIdsOk(queues - {key}, inUse - {QueueRawOf(queues[key].id)})
  {
    forall k | k in queues && k != key ensures QueueRawOf(queues[k].id) != QueueRawOf(queues[key].id) {}
  }

  lemma CreateSgKeepsIds(t: Tree, r: SgRequest, o: Outside)
    requires TreeIdsOk(t)
    ensures TreeIdsOk(CreateSg(t, r, o))
  {
    var u := CreateSg(t, r, o);
    if u != t {
      FreshSgId(t, o.choice);
      AddedSgIdsOk(t.sgs, t.sgIds, o.choice, u.sgs);
    }
  }

  lemma DeleteSgIds(t: Tree, id: NasId, o: Outside)
    requires TreeIdsOk(t)
    ensures TreeIdsOk(DeleteSg(t, id, o))
  {
    var u := DeleteSg(t, id, o);
    if u != t {
      DeleteSgKeepsIds(t, id, u.sgs, u.sgIds);
    }
  }

  lemma {:induction false} LinkAllKeys(t: Tree, links: seq<Link>)
    ensures var u := LinkAll(t, links);
            && u.queueIds == t.queueIds && u.sgIds == t.sgIds && u.sgs.Keys == t.sgs.Keys
            && u.queues.Keys == t.queues.Keys && forall k :: k in t.queues ==> u.queues[k].id == t.queues[k].id
  {
    if links != [] {
      LinkAllKeys(t, links[..|links| - 1]);
    }
  }

  lemma BringUpKeepsIds(t: Tree, port: nat, queueReport: seq<HwQueue>, groupReport: seq<HwSg>, rc: bool, b: Course,
                        u: Tree)
    requires TreeIdsOk(t) && BringsUp(t, port, queueReport, groupReport, rc, b, u)
    ensures TreeIdsOk(u)
  {
    if NoHqos(t, port) && b.read == |queueReport| && groupReport != [] {
      LinkAllKeys(b.base, b.links);
      SameIdsOk(b.base, u);
    }
  }

  lemma MoveKeepsIds(s: State, sh: VpQueues.Shape, m: Move, s': State)
    requires TreeIdsOk(s.tree) && Honest(s.tree, sh, m, s'.tree) && Takes(s, sh, m, s')
    ensures TreeIdsOk(s'.tree)
  {
    match m {
      case CreateQueueMove(key, parent, o) => CreateQueueKeepsIds(s.tree, key, parent, o);
      case SetQueueMove(key, parent, o) => SetQueueKeepsIds(s.tree, s.virt, key, parent, o);
      case DeleteQueueMove(key, o) => DeleteQueueKeepsIds(s.tree, key, o);
      case CreateSgMove(r, o) => CreateSgKeepsIds(s.tree, r, o);
      case SetSgMove(id, r, o) =>
        SetSgShape(s.tree, s.virt, id, r, o);
        SameIdsOk(s.tree, s'.tree);
      case DeleteSgMove(id, o) => DeleteSgIds(s.tree, id, o);
      case BringUpMove(port, queueReport, groupReport, rc, b) =>
        BringUpKeepsIds(s.tree, port, queueReport, groupReport, rc, b, s'.tree);
      case CreateVpMove(port) => CreatesVpKeepsIds(s.tree, s'.tree, sh, port);
      case BindMove(port, _, _) => BindKeepsIds(s.tree, port, sh.leaf, s'.tree);
      case UnbindMove(port) => UnbindKeepsIds(s.tree, port, sh.leaf, s'.tree);
      case DeletePortMove(port) =>
        QueueDeletionKeepsIds(s.tree.queues, s.tree.queueIds, port);
        SgDeletionKeepsIds(s.tree.sgs, s.tree.sgIds, port);
    }
  }

  /**
   In every state of every run, sound or not: each queue has an id of its own that its generator counts
   as in use, each group's id is packed or counted as in use, no queue's id is a group's, and none is null.
   */
  lemma {:induction false} IdsInEveryRun(sh: VpQueues.Shape, moves: seq<Move>, states: seq<State>, n: nat)
    requires IsRun(sh, moves, states) && n <= |moves|
    ensures TreeIdsOk(states[n].tree) && IdsDistinct(states[n].tree)
    decreases n
  {
    if n > 0 {
      IdsInEveryRun(sh, moves, states, n - 1);
      assert MoveAt(sh, moves[n - 1], states, n - 1);
      MoveKeepsIds(states[n - 1], sh, moves[n - 1], states[n]);
    }
    IdsStayApart(states[n].tree);
  }
}
