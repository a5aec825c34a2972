/**
 Every state of the destination is its statements replayed: feed runs, kills, schema changes and
 retractions all reduce to one sequence, and the history of each row is read off that sequence.
 */
module Lineage {
  import opened Feed
  import opened Destination
  import opened DuckSpec

  datatype Op =
    | Make(table: string, columns: seq<ColumnSpec>, key: string)
    | On(table: string, statement: Statement)
    | Drop(table: string)
    | Save(table: string, stamp: Stamp)
    | Nothing

  function Do(db: Database, op: Op): Database {
    match op
    case Make(table, columns, key) => Create(db, table, columns, key)
    case On(table, statement) => if table in db.tables then ExecIn(db, table, statement) else db
    case Drop(table) => db.(tables := db.tables - {table})
    case Save(table, stamp) => SaveCursor(db, table, stamp)
    case Nothing => db
  }

  function DoAll(db: Database, ops: seq<Op>): Database {
    if ops == [] then db else Do(DoAll(db, ops[..|ops| - 1]), ops[|ops| - 1])
  }

  // --- the statements an event issues ---------------------------------------------------------

  function AddOps(table: string, missing: seq<ColumnSpec>): (ops: seq<Op>)
    ensures |ops| == |missing|
  {
    seq(|missing|, i requires 0 <= i < |missing| => On(table, Add(missing[i])))
  }

  function EnsureOps(db: Database, flag: string, table: string, columns: seq<ColumnSpec>): seq<Op> {
    var key := KeyFor(db, flag, table);
    if !Declarable(columns, key) then []
    else
      var got := Create(db, table, columns, key).tables[table].columns;
      [Make(table, columns, key)] + if got <= columns then AddOps(table, columns[|got|..]) else []
  }

  function RowOps(db: Database, flag: string, e: Event): seq<Op>
    requires e.change.IsRow()
  {
    var columns := InferredColumns(e.change.Image());
    var made := if e.table in db.tables then [] else EnsureOps(db, flag, e.table, columns);
    var at := DoAll(db, made);
    if e.table !in at.tables || !NamesRow(at.tables[e.table], e.change.Image()) then made
    else made + [On(e.table, PutOf(at.tables[e.table], e))]
  }

  function SchemaOps(db: Database, flag: string, e: Event): seq<Op>
    requires e.change.AddColumn? || e.change.RenameColumn? || e.change.AlterColumnType?
  {
    if e.change.columns == [] then []
    else if e.table !in db.tables then EnsureOps(db, flag, e.table, DuckColumns(e.change.columns))
    else match PlanFor(db.tables[e.table], e.change)
      case Issue(s) => [On(e.table, s)]
      case _ => []
  }

  function ApplyOps(db: Database, flag: string, e: Event): seq<Op> {
    match e.change
    case CreateTable(columns) => EnsureOps(db, flag, e.table, DuckColumns(columns))
    case DropTable => [Drop(e.table)]
    case AddColumn(_, _) => SchemaOps(db, flag, e)
    case RenameColumn(_, _, _) => SchemaOps(db, flag, e)
    case AlterColumnType(_, _, _, _) => SchemaOps(db, flag, e)
    case _ => RowOps(db, flag, e)
  }

  function StepOps(db: Database, flag: string, e: Event): seq<Op> {
    if Skips(db, e) then []
    else if !Apply(db, flag, e).ok || e.change.BypassesCursor() then ApplyOps(db, flag, e)
    else ApplyOps(db, flag, e) + [Save(e.table, StampOf(e))]
  }

  /** All the statements a run of the feed issues, in order. */
  function RunOps(db: Database, flag: string, feed: seq<Event>): seq<Op>
    decreases |feed|
  {
    if feed == [] then []
    else
      var step := Step(db, flag, feed[0]);
      StepOps(db, flag, feed[0]) +
      if step.ok then RunOps(Final(db, step.states), flag, feed[1..]) else []
  }

  // --- replaying them gives the states of the run ---------------------------------------------

  /** The states of an effect are its statements replayed one by one. */
  ghost predicate Replays(db: Database, ops: seq<Op>, states: seq<Database>) {
    |ops| == |states| && forall i :: 0 <= i < |states| ==> states[i] == DoAll(db, ops[..i + 1])
  }

  lemma {:induction false} DoAllConcat(db: Database, a: seq<Op>, b: seq<Op>)
    ensures DoAll(db, a + b) == DoAll(DoAll(db, a), b)
    decreases |b|
  {
    if b == [] {
      assert a + b == a;
    } else {
      DoAllConcat(db, a, b[..|b| - 1]);
      assert (a + b)[..|a + b| - 1] == a + b[..|b| - 1];
    }
  }

  lemma ReplaysEnd(db: Database, ops: seq<Op>, states: seq<Database>)
    requires Replays(db, ops, states)
    ensures DoAll(db, ops) == Final(db, states)
  {
    assert ops[..|ops|] == ops;
  }

  lemma ReplaysConcat(db: Database, a: seq<Op>, s: seq<Database>, b: seq<Op>, t: seq<Database>)
    requires Replays(db, a, s) && Replays(Final(db, s), b, t)
    ensures Replays(db, a + b, s + t)
  {
    ReplaysEnd(db, a, s);
    forall i | 0 <= i < |s + t|
      ensures (s + t)[i] == DoAll(db, (a + b)[..i + 1])
    {
      if i < |s| {
        assert (a + b)[..i + 1] == a[..i + 1];
      } else {
        assert (a + b)[..i + 1] == a + b[..i - |s| + 1];
        DoAllConcat(db, a, b[..i - |s| + 1]);
      }
    }
  }

  lemma ReplaysOne(db: Database, op: Op)
    ensures Replays(db, [op], [Do(db, op)])
  {
  }

  lemma {:induction false} GrowthReplays(db: Database, table: string, missing: seq<ColumnSpec>)
    requires table in db.tables
    ensures Replays(db, AddOps(table, missing), Growth(db, table, missing))
    decreases |missing|
  {
    hide Exec;
    if missing != [] {
      var op := On(table, Add(missing[0]));
      ReplaysOne(db, op);
      GrowthReplays(Do(db, op), table, missing[1..]);
      ReplaysConcat(db, [op], [Do(db, op)], AddOps(table, missing[1..]), Growth(Do(db, op), table, missing[1..]));
      assert AddOps(table, missing) == [op] + AddOps(table, missing[1..]);
    }
  }

  lemma EnsureReplays(db: Database, flag: string, table: string, columns: seq<ColumnSpec>)
    ensures Replays(db, EnsureOps(db, flag, table, columns), Ensure(db, flag, table, columns).states)
  {
    hide Declarable, Growth, Replays;
    var key := KeyFor(db, flag, table);
    var made := Create(db, table, columns, key);
    var got := made.tables[table].columns;
    ReplaysOne(db, Make(table, columns, key));
    if Declarable(columns, key) {
      if got <= columns {
        GrowthReplays(made, table, columns[|got|..]);
        ReplaysConcat(db, [Make(table, columns, key)], [made],
                      AddOps(table, columns[|got|..]), Growth(made, table, columns[|got|..]));
      } else {
        assert [Make(table, columns, key)] + [] == [Make(table, columns, key)];
      }
    } else {
      ReplaysNothing(db);
    }
  }

  lemma ReplaysNothing(db: Database)
    ensures Replays(db, [], [])
  {
  }

  lemma RowReplays(db: Database, flag: string, e: Event)
    requires e.change.IsRow()
    ensures Replays(db, RowOps(db, flag, e), ApplyRow(db, flag, e).states)
  {
    hide Replays, Ensure, EnsureOps, InferredColumns, PutOf, Exec;
    var columns := InferredColumns(e.change.Image());
    var made := if e.table in db.tables then [] else EnsureOps(db, flag, e.table, columns);
    var ensured := if e.table in db.tables then Effect([], true) else Ensure(db, flag, e.table, columns);
    if e.table in db.tables {
      ReplaysNothing(db);
    } else {
      EnsureReplays(db, flag, e.table, columns);
      MadeOrRefused(db, flag, e.table, columns);
    }
    ReplaysEnd(db, made, ensured.states);
    var at := DoAll(db, made);
    if e.table in at.tables && NamesRow(at.tables[e.table], e.change.Image()) {
      var op := On(e.table, PutOf(at.tables[e.table], e));
      ReplaysOne(at, op);
      ReplaysConcat(db, made, ensured.states, [op], [Do(at, op)]);
    }
  }

  /** A table inferred from a row is either made or not: there is nothing to disagree with. */
  lemma MadeOrRefused(db: Database, flag: string, table: string, columns: seq<ColumnSpec>)
    requires table !in db.tables
    ensures var effect := Ensure(db, flag, table, columns);
            effect.ok <==> table in Final(db, effect.states).tables
  {
  }

  lemma StepReplays(db: Database, flag: string, e: Event)
    ensures Replays(db, StepOps(db, flag, e), Step(db, flag, e).states)
  {
    hide Replays, Ensure, EnsureOps, Exec, ApplyRow, RowOps, PlanFor;
    ReplaysNothing(db);
    var effect := Apply(db, flag, e);
    match e.change {
      case CreateTable(columns) =>
        EnsureReplays(db, flag, e.table, DuckColumns(columns));
      case DropTable =>
        ReplaysOne(db, Drop(e.table));
      case AddColumn(_, _) =>
        SchemaReplays(db, flag, e);
      case RenameColumn(_, _, _) =>
        SchemaReplays(db, flag, e);
      case AlterColumnType(_, _, _, _) =>
        SchemaReplays(db, flag, e);
      case _ =>
        RowReplays(db, flag, e);
    }
    var save := Save(e.table, StampOf(e));
    ReplaysOne(Final(db, effect.states), save);
    ReplaysConcat(db, ApplyOps(db, flag, e), effect.states, [save], [Do(Final(db, effect.states), save)]);
  }

  lemma SchemaReplays(db: Database, flag: string, e: Event)
    requires e.change.AddColumn? || e.change.RenameColumn? || e.change.AlterColumnType?
    ensures Replays(db, SchemaOps(db, flag, e), ApplySchema(db, flag, e).states)
  {
  }

  /** A run killed after any number of statements has left exactly those statements replayed. */
  lemma {:induction false} RunReplays(db: Database, flag: string, feed: seq<Event>)
    ensures Replays(db, RunOps(db, flag, feed), Run(db, flag, feed).states)
    decreases |feed|
  {
    hide Replays, Step, StepOps;
    ReplaysNothing(db);
    if feed != [] {
      var step := Step(db, flag, feed[0]);
      StepReplays(db, flag, feed[0]);
      if step.ok {
        var next := Final(db, step.states);
        RunReplays(next, flag, feed[1..]);
        var ops, rest := RunOps(next, flag, feed[1..]), Run(next, flag, feed[1..]).states;
        ReplaysConcat(db, StepOps(db, flag, feed[0]), step.states, ops, rest);
      } else {
        assert StepOps(db, flag, feed[0]) + [] == StepOps(db, flag, feed[0]);
      }
    }
  }

  // --- the history of one table ---------------------------------------------------------------

  /** The statements issued against one table, from the one that made it on. */
  function Against(db: Database, ops: seq<Op>, table: string): seq<Statement> {
    if ops == [] then []
    else
      var init, last := ops[..|ops| - 1], ops[|ops| - 1];
      if last.On? && last.table == table && table in DoAll(db, init).tables
      then Against(db, init, table) + [last.statement]
      else Against(db, init, table)
  }

  /** A table never dropped is its statements replayed over the empty table that was made. */
  lemma {:induction false} TableIsItsStatements(db: Database, ops: seq<Op>, table: string) returns (made: Table)
    requires table !in db.tables && table in DoAll(db, ops).tables
    requires Drop(table) !in ops
    ensures made.rows == map[]
    ensures DoAll(db, ops).tables[table] == ExecAll(made, Against(db, ops, table))
    decreases |ops|
  {
    hide Exec;
    var init, last := ops[..|ops| - 1], ops[|ops| - 1];
    var before := DoAll(db, init);
    if table in before.tables {
      made := TableIsItsStatements(db, init, table);
      if last.On? && last.table == table {
        var ss := Against(db, init, table);
        assert (ss + [last.statement])[..|ss|] == ss;
      }
    } else {
      NothingAgainst(db, init, table);
      made := DoAll(db, ops).tables[table];
    }
  }

  lemma {:induction false} NothingAgainst(db: Database, ops: seq<Op>, table: string)
    requires table !in DoAll(db, ops).tables && Drop(table) !in ops
    ensures Against(db, ops, table) == []
    decreases |ops|
  {
    if ops != [] {
      var init := ops[..|ops| - 1];
      NothingAgainst(db, init, table);
    }
  }

  /**
   The exact history of every row in every reachable state: whatever mix of feed runs, kills, schema
   changes and retractions the statements came from, the row a key holds is the winner's, carried
   through the later schema changes, and is marked retracted exactly when its writer's model version
   was retracted after it was installed.
   */
  lemma RowHistory(db: Database, ops: seq<Op>, table: string, k: Value) returns (w: int)
    requires table !in db.tables && table in DoAll(db, ops).tables && Drop(table) !in ops
    requires k in DoAll(db, ops).tables[table].rows
    ensures var ss := Against(db, ops, table);
            Winner(ss, k, w) && StandsAs(DoAll(db, ops).tables[table].rows[k], ss, w)
  {
    var made := TableIsItsStatements(db, ops, table);
    var ss := Against(db, ops, table);
    var i := KeyComesFromPut(made, ss, k);
    w := WinnerExists(ss, k, i);
    History(made, ss, k, w);
  }

  // --- what no run ever takes back ------------------------------------------------------------

  ghost predicate NoSave(ops: seq<Op>) {
    forall op :: op in ops ==> !op.Save?
  }

  lemma {:induction false} NoSaveKeepsCheckpoint(db: Database, ops: seq<Op>)
    requires NoSave(ops)
    ensures DoAll(db, ops).checkpoint == db.checkpoint
    decreases |ops|
  {
    hide Exec;
    if ops != [] {
      NoSaveKeepsCheckpoint(db, ops[..|ops| - 1]);
    }
  }

  lemma ApplyNeverSaves(db: Database, flag: string, e: Event)
    ensures NoSave(ApplyOps(db, flag, e))
  {
    hide Declarable, DoAll, NamesRow, PutOf, PlanFor, InferredColumns;
  }

  /** Within one step no cursor moves back, wherever it is killed. */
  lemma StepKeepsCursors(db: Database, flag: string, e: Event, i: nat, t: string)
    requires i <= |StepOps(db, flag, e)|
    ensures !Above(Cursor(db, t), Cursor(DoAll(db, StepOps(db, flag, e)[..i]), t))
  {
    hide ApplyOps, Apply, Do;
    var ops, apply := StepOps(db, flag, e), ApplyOps(db, flag, e);
    ApplyNeverSaves(db, flag, e);
    if i <= |apply| {
      assert ops[..i] == apply[..i] || ops == [];
      NoSaveKeepsCheckpoint(db, ops[..i]);
    } else {
      NoSaveKeepsCheckpoint(db, apply);
      assert ops[..i] == apply + [Save(e.table, StampOf(e))];
      assert ops[..i][..|apply|] == apply;
      SaveMovesForward(db, DoAll(db, apply), e, t);
    }
  }

  lemma SaveMovesForward(db: Database, at: Database, e: Event, t: string)
    requires at.checkpoint == db.checkpoint && !Skips(db, e) && !e.change.BypassesCursor()
    ensures !Above(Cursor(db, t), Cursor(Do(at, Save(e.table, StampOf(e))), t))
  {
  }

  /** Over a whole run of any feed, killed after any statement, no cursor ever moves back. */
  lemma {:induction false} CursorsNeverDecrease(db: Database, flag: string, feed: seq<Event>, i: nat, t: string)
    requires i <= |RunOps(db, flag, feed)|
    ensures !Above(Cursor(db, t), Cursor(DoAll(db, RunOps(db, flag, feed)[..i]), t))
    decreases |feed|
  {
    hide Step, StepOps, Cursor;
    if feed == [] {
      NoSaveKeepsCheckpoint(db, []);
      SameCursor(db, t);
    } else {
      var ops := StepOps(db, flag, feed[0]);
      if i <= |ops| {
        assert RunOps(db, flag, feed)[..i] == ops[..i];
        StepKeepsCursors(db, flag, feed[0], i, t);
      } else {
        var step := Step(db, flag, feed[0]);
        var next := Final(db, step.states);
        var rest := RunOps(next, flag, feed[1..]);
        StepReplays(db, flag, feed[0]);
        ReplaysEnd(db, ops, step.states);
        assert RunOps(db, flag, feed)[..i] == ops + rest[..i - |ops|];
        DoAllConcat(db, ops, rest[..i - |ops|]);
        assert ops[..|ops|] == ops;
        StepKeepsCursors(db, flag, feed[0], |ops|, t);
        CursorsNeverDecrease(next, flag, feed[1..], i - |ops|, t);
      }
    }
  }

  lemma SameCursor(db: Database, t: string)
    ensures !Above(Cursor(db, t), Cursor(db, t))
  {
  }

  /**
   No resurrection: whatever statements follow, a key tombstoned by a DELETE or a delete-mode
   retraction stays tombstoned at its stamp until a write for it at a strictly greater one.
   */
  lemma {:induction false} StaysTombstoned(db: Database, ops: seq<Op>, table: string, k: Value)
    requires table in db.tables && k in db.tables[table].rows && db.tables[table].rows[k].deleted
    requires Drop(table) !in ops
    requires forall op :: op in ops && op.On? && op.table == table && op.statement.Put? && op.statement.key == k ==>
      !Above(op.statement.stamp, db.tables[table].rows[k].stamp)
    ensures var r := DoAll(db, ops);
            && table in r.tables && k in r.tables[table].rows
            && r.tables[table].rows[k].deleted && r.tables[table].rows[k].stamp == db.tables[table].rows[k].stamp
    decreases |ops|
  {
    hide Carry, ColumnsAfter;
    if ops != [] {
      StaysTombstoned(db, ops[..|ops| - 1], table, k);
      assert ops[|ops| - 1] in ops;
    }
  }
}
