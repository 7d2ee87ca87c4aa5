/**
 A table keyed by ids of its own generator, as the switch keeps for WRED profiles, scheduler
 profiles and maps: creation takes an id, the hardware accepts or not, and only then is the row
 added; deletion gives the id back.
 */
module ProfileTables {
  import opened Wrappers
  import opened NasIds
  import opened IdGenerator

  datatype Table<P> = Table(rows: map<NasId, P>, inUse: set<NasId>)

  datatype Outcome = Done(id: NasId) | Refused | Duplicate

  /** The generator and the table agree. */
  ghost predicate InStep<P>(t: Table<P>, max: nat) {
    t.inUse == t.rows.Keys && forall id :: id in t.rows ==> 0 < id <= max
  }

  /** The id a create takes: any free one, or the one the request names if it is free. */
  function TakenId(inUse: set<NasId>, max: nat, requested: NasId, choice: nat): Option<NasId> {
    if requested == 0 then Allocate(inUse, max, choice)
    else if IsFree(inUse, max, requested) then Some(requested)
    else None
  }

  function CreateRow<P>(t: Table<P>, max: nat, requested: NasId, choice: nat, accepts: bool, row: P): (Table<P>,
                        Outcome) {
    match TakenId(t.inUse, max, requested, choice)
    case None => (t, Refused)
    case Some(id) =>
      if !accepts then (t, Refused)
      else if id in t.rows then (t, Duplicate)
      else (Table(t.rows[id := row], t.inUse + {id}), Done(id))
  }

  function DeleteRow<P>(t: Table<P>, id: NasId, accepts: bool): (Table<P>, Outcome) {
    if id !in t.rows || !accepts then (t, Refused)
    else (Table(t.rows - {id}, t.inUse - {id}), Done(id))
  }

  function UpdateRow<P>(t: Table<P>, id: NasId, accepts: bool, row: P): (Table<P>, Outcome) {
    if id !in t.rows || !accepts then (t, Refused)
    else (t.(rows := t.rows[id := row]), Done(id))
  }

  datatype TableOp<P> =
    | OpCreate(requested: NasId, choice: nat, accepts: bool, row: P)
    | OpUpdate(id: NasId, accepts: bool, row: P)
    | OpDelete(id: NasId, accepts: bool)

  function StepTable<P>(t: Table<P>, max: nat, op: TableOp<P>): (Table<P>, Outcome) {
    match op
    case OpCreate(requested, choice, accepts, row) => CreateRow(t, max, requested, choice, accepts, row)
    case OpUpdate(id, accepts, row) => UpdateRow(t, id, accepts, row)
    case OpDelete(id, accepts) => DeleteRow(t, id, accepts)
  }

  function RunTable<P>(t: Table<P>, max: nat, ops: seq<TableOp<P>>): Table<P>
    decreases |ops|
  {
    if ops == [] then t else RunTable(StepTable(t, max, ops[0]).0, max, ops[1..])
  }

  /** One operation, accepted or refused, keeps generator and table in step and never meets a duplicate. */
  lemma StepKeepsInStep<P>(t: Table<P>, max: nat, op: TableOp<P>)
    requires InStep(t, max)
    ensures InStep(StepTable(t, max, op).0, max)
    ensures StepTable(t, max, op).1 != Duplicate
    ensures StepTable(t, max, op).1 == Refused ==> StepTable(t, max, op).0 == t
  {}

  /**
   Over every run of creates, updates and deletes, failed ones included, the ids in use are exactly
   the keys of the table, and the duplicate exception of add is unreachable.
   */
  lemma {:induction false} InStepInEveryRun<P>(t: Table<P>, max: nat, ops: seq<TableOp<P>>)
    requires InStep(t, max)
    ensures InStep(RunTable(t, max, ops), max)
    ensures forall op :: StepTable(RunTable(t, max, ops), max, op).1 != Duplicate
    decreases |ops|
  {
    if ops != [] {
      StepKeepsInStep(t, max, ops[0]);
      InStepInEveryRun(StepTable(t, max, ops[0]).0, max, ops[1..]);
    } else {
      forall op ensures StepTable(t, max, op).1 != Duplicate {
        StepKeepsInStep(t, max, op);
      }
    }
  }

  /** The table and its generator as the switch object holds them. */
  class ProfileStore<P> {
    const max: nat
    var rows: map<NasId, P>
    var inUse: set<NasId>

    constructor (limit: nat)
      ensures max == limit && rows == map[] && inUse == {}
    {
      max, rows, inUse := limit, map[], {};
    }

    ghost function State(): Table<P>
      reads this
    {
      Table(rows, inUse)
    }

    /** add_xxx: false stands for the duplicate exception. */
    method Add(id: NasId, row: P) returns (ok: bool)
      modifies this`rows
      ensures ok <==> id !in old(rows)
      ensures rows == if ok then old(rows)[id := row] else old(rows)
    {
      ok := id !in rows;
      if ok {
        rows := rows[id := row];
      }
    }

    /** remove_xxx: the id is released, then the row erased. */
    method Remove(id: NasId)
      modifies this`rows, this`inUse
      ensures rows == old(rows) - {id} && inUse == old(inUse) - {id}
    {
      inUse := inUse - {id};
      rows := rows - {id};
    }

    /** The common body of the create operations: take an id, commit, add, or give the id back. */
    method Create(requested: NasId, choice: nat, accepts: bool, row: P) returns (outcome: Outcome)
      modifies this`rows, this`inUse
      ensures (State(), outcome) == CreateRow(old(State()), max, requested, choice, accepts, row)
    {
      var taken := TakenId(inUse, max, requested, choice);
      if taken.None? {
        return Refused;
      }
      var id := taken.value;
      inUse := inUse + {id};
      outcome := Refused;
      if accepts {
        var ok := Add(id, row);
        outcome := if ok then Done(id) else Duplicate;
      }
      if outcome != Done(id) {
        inUse := inUse - {id};
        assert inUse == old(inUse);
      }
    }

    method Delete(id: NasId, accepts: bool) returns (outcome: Outcome)
      modifies this`rows, this`inUse
      ensures (State(), outcome) == DeleteRow(old(State()), id, accepts)
    {
      if id !in rows || !accepts {
        return Refused;
      }
      Remove(id);
      outcome := Done(id);
    }
  }
}
