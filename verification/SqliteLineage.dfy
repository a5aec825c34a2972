/**
 Every state of a SQLite run is its statements replayed, so what is proved of any sequence of statements
 is proved of this destination too.
 */
module SqliteLineage {
  import opened Feed
  import opened Destination
  import opened Lineage
  import opened SqliteSpec
  import opened SqliteReplay
  import D = DuckSpec

  // --- the statements an event issues ---------------------------------------------------------

  /** The primary key of a table made or rebuilt for a key column: none when the shape leaves it out. */
  function Primary(cols: seq<ColumnSpec>, key: string): string {
    if key in Names(cols) then key else ""
  }

  /** A column that is there is passed over. */
  function AddOp(t: Table, table: string, c: ColumnSpec): Op {
    if c.name in Names(t.columns) || D.Bookkeeping(c.name) then Nothing else On(table, Add(c))
  }

  function GrowthOps(db: D.Database, table: string, missing: seq<ColumnSpec>): (ops: seq<Op>)
    requires table in db.tables
    decreases |missing|
  {
    if missing == [] then []
    else [AddOp(db.tables[table], table, missing[0])] + GrowthOps(Growth(db, table, missing)[0], table, missing[1..])
  }

  function EnsureOps(p: Process, flag: string, table: string, cols: seq<ColumnSpec>, declared: bool): seq<Op> {
    var want := Spelled(cols);
    if table !in p.db.tables then
      if Creatable(Names(cols)) then [Make(table, want, Primary(want, flag))] else []
    else
      var got := p.db.tables[table].columns;
      [Nothing] + if Behind(got, want, declared) then GrowthOps(p.db, table, want[|got|..]) else []
  }

  function RowOps(p: Process, flag: string, e: Event): seq<Op>
    requires e.change.IsRow()
  {
    var made := if e.table in p.columns then [] else EnsureOps(p, flag, e.table, Inferred(e.change.Image()), false);
    var settled := Settled(p, flag, e);
    var at := D.Final(p.db, settled.states);
    if !ApplyRow(p, flag, e).ok || e.table !in at.tables || e.table !in settled.columns ||
       at.tables[e.table].key !in e.change.Image()
    then made
    else made + [On(e.table, PutOf(at.tables[e.table], settled.columns[e.table], e))]
  }

  /** The one statement of a column change. */
  function EvolveOp(t: Table, flag: string, table: string, c: Change): Op
    requires IsColumnChange(c)
  {
    match c
    case AddColumn(cols, name) =>
      var typ := LastTypeIn(Spelled(cols), name);
      if typ.None? then Nothing else AddOp(t, table, ColumnSpec(name, typ.value))
    case RenameColumn(_, from, to) => if from in Names(t.columns) then On(table, Rename(from, to)) else Nothing
    case AlterColumnType(cols, _, _, _) =>
      On(table, Rebuild(Spelled(cols), Primary(Spelled(cols), KeyName(t, flag))))
  }

  function SchemaOps(p: Process, flag: string, e: Event): seq<Op>
    requires IsColumnChange(e.change)
  {
    if e.change.columns == [] then []
    else if e.table !in p.db.tables then EnsureOps(p, flag, e.table, e.change.columns, true)
    else if Evolved(p.db.tables[e.table], flag, e.change).None? then []
    else [EvolveOp(p.db.tables[e.table], flag, e.table, e.change)]
  }

  function ApplyOps(p: Process, flag: string, e: Event): seq<Op> {
    match e.change
    case CreateTable(columns) => EnsureOps(p, flag, e.table, columns, true)
    case DropTable => [Drop(e.table)]
    case AddColumn(_, _) => SchemaOps(p, flag, e)
    case RenameColumn(_, _, _) => SchemaOps(p, flag, e)
    case AlterColumnType(_, _, _, _) => SchemaOps(p, flag, e)
    case _ => RowOps(p, flag, e)
  }

  function StepOps(p: Process, flag: string, e: Event): seq<Op> {
    if D.Skips(p.db, e) then []
    else if !Apply(p, flag, e).ok || e.change.BypassesCursor() then ApplyOps(p, flag, e)
    else ApplyOps(p, flag, e) + [Save(e.table, D.StampOf(e))]
  }

  /** All the statements a run of the feed issues, in order. */
  function RunOps(p: Process, flag: string, feed: seq<Event>): seq<Op>
    decreases |feed|
  {
    if feed == [] then []
    else
      var step := Step(p, flag, feed[0]);
      StepOps(p, flag, feed[0]) + if step.ok then RunOps(End(p, step), flag, feed[1..]) else []
  }

  // --- replaying them gives the states of the run ---------------------------------------------

  lemma {:induction false} GrowthReplays(db: D.Database, table: string, missing: seq<ColumnSpec>)
    requires table in db.tables
    ensures Replays(db, GrowthOps(db, table, missing), Growth(db, table, missing))
    decreases |missing|
  {
    hide Exec, Replays, D.Bookkeeping;
    ReplaysNothing(db);
    if missing != [] {
      var op, next := AddOp(db.tables[table], table, missing[0]), Growth(db, table, missing)[0];
      ReplaysOne(db, op);
      assert Do(db, op) == next by { Adds(db, table, missing[0]); }
      GrowthReplays(next, table, missing[1..]);
      ReplaysConcat(db, [op], [next], GrowthOps(next, table, missing[1..]), Growth(next, table, missing[1..]));
    }
  }

  lemma Adds(db: D.Database, table: string, c: ColumnSpec)
    requires table in db.tables
    ensures Do(db, AddOp(db.tables[table], table, c)) ==
            db.(tables := db.tables[table := AddIfNew(db.tables[table], c)])
  {
    hide Exec;
    assert db.tables[table := db.tables[table]] == db.tables;
  }

  lemma EnsureReplays(p: Process, flag: string, table: string, cols: seq<ColumnSpec>, declared: bool)
    ensures Replays(p.db, EnsureOps(p, flag, table, cols, declared), Ensure(p, flag, table, cols, declared).states)
  {
    hide Replays, Growth, GrowthOps, Behind, Agree, Spelled, Creatable;
    var want := Spelled(cols);
    ReplaysNothing(p.db);
    if table !in p.db.tables {
      ReplaysOne(p.db, Make(table, want, Primary(want, flag)));
    } else {
      ReplaysOne(p.db, Nothing);
      var got := p.db.tables[table].columns;
      if Behind(got, want, declared) {
        BehindIsShorter(got, want, declared);
        var missing := want[|got|..];
        GrowthReplays(p.db, table, missing);
        ReplaysConcat(p.db, [Nothing], [p.db], GrowthOps(p.db, table, missing), Growth(p.db, table, missing));
      } else {
        assert [Nothing] + [] == [Nothing] && [p.db] + [] == [p.db];
      }
    }
  }

  lemma RowReplays(p: Process, flag: string, e: Event)
    requires e.change.IsRow()
    ensures Replays(p.db, RowOps(p, flag, e), ApplyRow(p, flag, e).states)
  {
    RowSplits(p, flag, e);
    hide Replays, Ensure, EnsureOps, Inferred, PutOf, Exec, ApplyRow, Binds;
    var settled := Settled(p, flag, e);
    var made := if e.table in p.columns then [] else EnsureOps(p, flag, e.table, Inferred(e.change.Image()), false);
    if e.table in p.columns {
      ReplaysNothing(p.db);
    } else {
      EnsureReplays(p, flag, e.table, Inferred(e.change.Image()), false);
    }
    var at := D.Final(p.db, settled.states);
    if ApplyRow(p, flag, e).ok {
      var op := On(e.table, PutOf(at.tables[e.table], settled.columns[e.table], e));
      ReplaysOne(at, op);
      ReplaysConcat(p.db, made, settled.states, [op], [Do(at, op)]);
    }
  }

  /** A rebuild is one statement over the table: its rows with the columns of the new shape. */
  lemma RebuildIsOne(t: Table, flag: string, cols: seq<ColumnSpec>)
    ensures RebuiltTable(t, flag, cols) == Exec(t, Rebuild(Spelled(cols), Primary(Spelled(cols), KeyName(t, flag))))
  {
    var s := Rebuild(Spelled(cols), Primary(Spelled(cols), KeyName(t, flag)));
    assert Names(Spelled(cols)) == Names(cols);
    hide Spelled, Names;
    forall k | k in t.rows
      ensures Rebuilt(t.rows[k], Names(cols)) == RowAfter(t.rows[k], s)
    {
      assert Rebuilt(t.rows[k], Names(cols)).cells == Carry(t.rows[k].cells, s);
    }
  }

  lemma EvolvesByOne(db: D.Database, flag: string, table: string, c: Change)
    requires IsColumnChange(c) && table in db.tables && Evolved(db.tables[table], flag, c).Some?
    ensures Do(db, EvolveOp(db.tables[table], flag, table, c)) ==
            db.(tables := db.tables[table := Evolved(db.tables[table], flag, c).value])
  {
    hide Exec, Spelled, RebuiltTable;
    var t := db.tables[table];
    assert db.tables[table := t] == db.tables;
    if c.AddColumn? {
      Adds(db, table, ColumnSpec(c.column, LastTypeIn(Spelled(c.columns), c.column).value));
    } else if c.AlterColumnType? {
      RebuildIsOne(t, flag, c.columns);
    }
  }

  lemma SchemaReplays(p: Process, flag: string, e: Event)
    requires IsColumnChange(e.change)
    ensures Replays(p.db, SchemaOps(p, flag, e), ApplySchema(p, flag, e).states)
  {
    hide Replays, Ensure, EnsureOps, Evolved, EvolveOp, Exec;
    ReplaysNothing(p.db);
    if e.table !in p.db.tables {
      EnsureReplays(p, flag, e.table, e.change.columns, true);
    } else if Evolved(p.db.tables[e.table], flag, e.change).Some? {
      ReplaysOne(p.db, EvolveOp(p.db.tables[e.table], flag, e.table, e.change));
      EvolvesByOne(p.db, flag, e.table, e.change);
    }
  }

  lemma ApplyReplays(p: Process, flag: string, e: Event)
    ensures Replays(p.db, ApplyOps(p, flag, e), Apply(p, flag, e).states)
  {
    hide Replays, Ensure, EnsureOps, ApplyRow, RowOps, ApplySchema, SchemaOps;
    match e.change {
      case CreateTable(columns) => EnsureReplays(p, flag, e.table, columns, true);
      case DropTable => ReplaysOne(p.db, Drop(e.table));
      case AddColumn(_, _) => SchemaReplays(p, flag, e);
      case RenameColumn(_, _, _) => SchemaReplays(p, flag, e);
      case AlterColumnType(_, _, _, _) => SchemaReplays(p, flag, e);
      case _ => RowReplays(p, flag, e);
    }
  }

  lemma StepReplays(p: Process, flag: string, e: Event)
    ensures Replays(p.db, StepOps(p, flag, e), Step(p, flag, e).states)
  {
    hide Replays, Apply, ApplyOps, D.Skips;
    ReplaysNothing(p.db);
    ApplyReplays(p, flag, e);
    var at, save := D.Final(p.db, Apply(p, flag, e).states), Save(e.table, D.StampOf(e));
    ReplaysOne(at, save);
    ReplaysConcat(p.db, ApplyOps(p, flag, e), Apply(p, flag, e).states, [save], [Do(at, save)]);
  }

  /** A SQLite run killed after any number of statements has left exactly those statements replayed. */
  lemma {:induction false} RunReplays(p: Process, flag: string, feed: seq<Event>)
    ensures Replays(p.db, RunOps(p, flag, feed), Run(p, flag, feed).states)
    decreases |feed|
  {
    hide Replays, Step, StepOps;
    ReplaysNothing(p.db);
    if feed != [] {
      var step := Step(p, flag, feed[0]);
      StepReplays(p, flag, feed[0]);
      if step.ok {
        var next := End(p, step);
        RunReplays(next, flag, feed[1..]);
        var ops, rest := RunOps(next, flag, feed[1..]), Run(next, flag, feed[1..]).states;
        ReplaysConcat(p.db, StepOps(p, flag, feed[0]), step.states, ops, rest);
      } else {
        assert StepOps(p, flag, feed[0]) + [] == StepOps(p, flag, feed[0]);
      }
    }
  }

  // --- what holds of every state of a run -------------------------------------------------------

  predicate NeverDrops(feed: seq<Event>, table: string) {
    forall e :: e in feed && e.change.DropTable? ==> e.table != table
  }

  lemma {:induction false} GrowthNeverDrops(db: D.Database, table: string, missing: seq<ColumnSpec>, dropped: string)
    requires table in db.tables
    ensures Drop(dropped) !in GrowthOps(db, table, missing)
    decreases |missing|
  {
    if missing != [] {
      GrowthNeverDrops(Growth(db, table, missing)[0], table, missing[1..], dropped);
    }
  }

  lemma EnsureNeverDrops(
    p: Process, flag: string, table: string, cols: seq<ColumnSpec>, declared: bool, dropped: string)
    ensures Drop(dropped) !in EnsureOps(p, flag, table, cols, declared)
  {
    hide Behind, Creatable, GrowthOps, Spelled;
    if table in p.db.tables {
      var want, got := Spelled(cols), p.db.tables[table].columns;
      if Behind(got, want, declared) {
        BehindIsShorter(got, want, declared);
        GrowthNeverDrops(p.db, table, want[|got|..], dropped);
      }
    }
  }

  lemma StepNeverDrops(p: Process, flag: string, e: Event, dropped: string)
    requires NeverDrops([e], dropped)
    ensures Drop(dropped) !in StepOps(p, flag, e)
  {
    hide EnsureOps, Ensure, Evolved, ApplyRow, D.Skips, Inferred, PutOf, Apply;
    assert e in [e];
    if e.change.IsRow() {
      EnsureNeverDrops(p, flag, e.table, Inferred(e.change.Image()), false, dropped);
    } else if !e.change.DropTable? {
      EnsureNeverDrops(p, flag, e.table, e.change.columns, true, dropped);
    }
  }

  lemma {:induction false} RunNeverDrops(p: Process, flag: string, feed: seq<Event>, dropped: string)
    requires NeverDrops(feed, dropped)
    ensures Drop(dropped) !in RunOps(p, flag, feed)
    decreases |feed|
  {
    hide Step, StepOps;
    if feed != [] {
      StepNeverDrops(p, flag, feed[0], dropped);
      var step := Step(p, flag, feed[0]);
      if step.ok {
        RunNeverDrops(End(p, step), flag, feed[1..], dropped);
      }
    }
  }

  /** The statements a run had issued when it came to its state i. */
  function OpsTo(p: Process, flag: string, feed: seq<Event>, i: nat): seq<Op> {
    var ops := RunOps(p, flag, feed);
    if i < |ops| then ops[..i + 1] else ops
  }

  lemma StateIsReplayed(p: Process, flag: string, feed: seq<Event>, i: nat, table: string)
    requires i < |Run(p, flag, feed).states| && NeverDrops(feed, table)
    ensures Run(p, flag, feed).states[i] == DoAll(p.db, OpsTo(p, flag, feed, i))
    ensures Drop(table) !in OpsTo(p, flag, feed, i)
  {
    hide Run, RunOps;
    RunReplays(p, flag, feed);
    RunNeverDrops(p, flag, feed, table);
  }

  /** The exact history of every row, in every state of a run that made its table and did not drop it. */
  lemma RowHistoryInRun(p: Process, flag: string, feed: seq<Event>, i: nat, table: string, k: Value) returns (w: int)
    requires table !in p.db.tables && NeverDrops(feed, table) && i < |Run(p, flag, feed).states|
    requires var s := Run(p, flag, feed).states[i]; table in s.tables && k in s.tables[table].rows
    ensures var ss := Against(p.db, OpsTo(p, flag, feed, i), table);
            Winner(ss, k, w) && StandsAs(Run(p, flag, feed).states[i].tables[table].rows[k], ss, w)
  {
    hide Run, OpsTo, DoAll, Against, Winner, StandsAs, NeverDrops;
    StateIsReplayed(p, flag, feed, i, table);
    w := RowHistory(p.db, OpsTo(p, flag, feed, i), table, k);
  }

  /** A write for a key at a stamp strictly above the one given. */
  predicate Overwrites(op: Op, table: string, k: Value, stamp: Stamp) {
    && op.On? && op.table == table && op.statement.Put? && op.statement.key == k
    && Above(op.statement.stamp, stamp)
  }

  /** A tombstone stays, in every state of a run that does not drop its table, until a strictly newer write. */
  lemma TombstoneInRun(p: Process, flag: string, feed: seq<Event>, i: nat, table: string, k: Value)
    requires table in p.db.tables && k in p.db.tables[table].rows && p.db.tables[table].rows[k].deleted
    requires NeverDrops(feed, table) && i < |Run(p, flag, feed).states|
    requires forall op :: op in OpsTo(p, flag, feed, i) ==> !Overwrites(op, table, k, p.db.tables[table].rows[k].stamp)
    ensures var s := Run(p, flag, feed).states[i];
            && table in s.tables && k in s.tables[table].rows
            && s.tables[table].rows[k].deleted && s.tables[table].rows[k].stamp == p.db.tables[table].rows[k].stamp
  {
    hide Run, OpsTo, DoAll, NeverDrops;
    StateIsReplayed(p, flag, feed, i, table);
    StaysTombstoned(p.db, OpsTo(p, flag, feed, i), table, k);
  }

  lemma StepKeepsCursors(p: Process, flag: string, e: Event, s: D.Database, t: string)
    requires s in Step(p, flag, e).states
    ensures !Above(D.Cursor(p.db, t), D.Cursor(s, t))
  {
    hide Apply;
    var states := Apply(p, flag, e).states;
    if s in states {
      ApplyStates(p, flag, e, s);
    } else {
      var at := D.Final(p.db, states);
      if at in states {
        ApplyStates(p, flag, e, at);
      }
      SaveMovesForward(p.db, at, e, t);
    }
  }

  /** Over a whole run of any feed, killed after any statement, no cursor ever moves back. */
  lemma {:induction false} CursorsNeverDecrease(p: Process, flag: string, feed: seq<Event>, s: D.Database, t: string)
    requires s in Run(p, flag, feed).states
    ensures !Above(D.Cursor(p.db, t), D.Cursor(s, t))
    decreases |feed|
  {
    hide Step, D.Cursor;
    var step := Step(p, flag, feed[0]);
    if s in step.states {
      StepKeepsCursors(p, flag, feed[0], s, t);
    } else {
      var next := End(p, step);
      if step.states != [] {
        StepKeepsCursors(p, flag, feed[0], next.db, t);
      }
      CursorsNeverDecrease(next, flag, feed[1..], s, t);
    }
  }
}
