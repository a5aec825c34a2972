/**
 Drops. A drop bypasses the cursor and keeps it, so a restart drops the table again and skips whatever
 was streamed into it since; what comes back is what declarations and snapshot rows build on their own.
 */
module Drops {
  import opened Feed
  import opened Destination
  import opened DuckSpec
  import opened Replay
  import opened Evolution
  import CursorPath

  predicate Drops(e: Event, t: string) {
    e.change.DropTable? && e.table == t
  }

  predicate Dropped(done: seq<Event>, t: string) {
    exists e :: e in done && Drops(e, t)
  }

  /** The events after the last drop of a table. */
  function SinceDrop(done: seq<Event>, t: string): seq<Event>
    requires Dropped(done, t)
    decreases |done|
  {
    if Dropped(done[1..], t) then SinceDrop(done[1..], t) else done[1..]
  }

  predicate Snapshots(done: seq<Event>, t: string) {
    exists e :: e in done && e.change.Read? && e.table == t
  }

  // ---------------------------------------------------------------------------------------------
  // Rows.

  ghost predicate NoRows(db: Database, t: string) {
    t in db.tables ==> db.tables[t].rows == map[]
  }

  lemma {:induction false} GrowthKeepsNoRows(db: Database, table: string, missing: seq<ColumnSpec>, t: string)
    requires table in db.tables && NoRows(db, t)
    ensures NoRows(Final(db, Growth(db, table, missing)), t)
    decreases |missing|
  {
    if missing != [] {
      var next := ExecIn(db, table, Add(missing[0]));
      assert NoRows(next, t);
      GrowthKeepsNoRows(next, table, missing[1..], t);
    }
  }

  lemma EnsureKeepsNoRows(db: Database, flag: string, table: string, columns: seq<ColumnSpec>, t: string)
    requires NoRows(db, t)
    ensures NoRows(Final(db, Ensure(db, flag, table, columns).states), t)
  {
    hide Declarable, Growth;
    var created := Create(db, table, columns, KeyFor(db, flag, table));
    var got := created.tables[table].columns;
    if got <= columns {
      GrowthKeepsNoRows(created, table, columns[|got|..], t);
    }
  }

  lemma StepKeepsNoRows(db: Database, flag: string, e: Event, t: string)
    requires NoRows(db, t) && Covers(db, [e]) && !(e.change.Read? && e.table == t)
    ensures NoRows(Final(db, Step(db, flag, e).states), t)
  {
    hide Ensure, Exec, Skips;
    assert e in [e];
    if e.change.CreateTable? {
      EnsureKeepsNoRows(db, flag, e.table, DuckColumns(e.change.columns), t);
    } else if e.change.Read? {
      EnsureKeepsNoRows(db, flag, e.table, InferredColumns(e.change.Image()), t);
    }
  }

  lemma StepKeepsSomeRow(db: Database, flag: string, e: Event, t: string)
    requires !NoRows(db, t) && Covers(db, [e]) && !Drops(e, t)
    ensures !NoRows(Final(db, Step(db, flag, e).states), t)
  {
    hide Ensure, Exec, Later, Skips;
    assert e in [e];
    var k :| k in db.tables[t].rows;
    var next := Final(db, Step(db, flag, e).states);
    if e.change.Read? || e.change.CreateTable? {
      BypassGrows(db, flag, e);
      LaterKeepsRow(db, next, t, k);
    } else if e.change.DropTable? {
      assert next.tables[t] == db.tables[t];
    }
  }

  lemma LaterKeepsRow(db: Database, next: Database, t: string, k: Value)
    requires Later(db, next) && t in db.tables && k in db.tables[t].rows
    ensures !NoRows(next, t)
  {
    assert LaterTable(db.tables[t], next.tables[t]);
  }

  lemma ReadLeavesRow(db: Database, flag: string, e: Event)
    requires e.change.Read? && Step(db, flag, e).ok
    ensures !NoRows(Final(db, Step(db, flag, e).states), e.table)
  {
    LandSettles(db, flag, e);
  }

  /** Without a drop, a table has a row in the end exactly when it had one or a snapshot row came. */
  lemma {:induction false} RowsIff(db: Database, flag: string, done: seq<Event>, t: string)
    requires AllEvolve(done) && Covers(db, done) && !Dropped(done, t) && Outcome(db, flag, done).1
    ensures NoRows(Outcome(db, flag, done).0, t) <==> NoRows(db, t) && !Snapshots(done, t)
    decreases |done|
  {
    hide Step, Run, Outcome, Skips, Evolves, NoRows;
    if done == [] {
      CursorPath.OutcomeNil(db, flag);
    } else {
      var e, rest := done[0], done[1..];
      assert done == [e] + rest;
      assert forall x :: x in done <==> x == e || x in rest;
      OutcomeCons(db, flag, e, rest);
      CoversAfter(db, flag, e, rest);
      var next := Final(db, Step(db, flag, e).states);
      if e.change.Read? && e.table == t {
        ReadLeavesRow(db, flag, e);
      } else if NoRows(db, t) {
        StepKeepsNoRows(db, flag, e, t);
      } else {
        StepKeepsSomeRow(db, flag, e, t);
      }
      RowsIff(next, flag, rest, t);
    }
  }

  lemma DropLeavesNothing(db: Database, flag: string, e: Event)
    requires e.change.DropTable?
    ensures e.table !in Final(db, Step(db, flag, e).states).tables
  {
  }

  /** Going over a drop again leaves its table without a row exactly when no snapshot row follows the last drop. */
  lemma {:induction false} RowsAreLostIff(db: Database, flag: string, done: seq<Event>, t: string)
    requires AllEvolve(done) && Covers(db, done) && Dropped(done, t) && Outcome(db, flag, done).1
    ensures NoRows(Outcome(db, flag, done).0, t) <==> !Snapshots(SinceDrop(done, t), t)
    decreases |done|
  {
    hide Step, Run, Outcome, Skips, Evolves;
    var e, rest := done[0], done[1..];
    assert done == [e] + rest;
    OutcomeCons(db, flag, e, rest);
    CoversAfter(db, flag, e, rest);
    var next := Final(db, Step(db, flag, e).states);
    if Dropped(rest, t) {
      RowsAreLostIff(next, flag, rest, t);
    } else {
      DropLeavesNothing(db, flag, e);
      RowsIff(next, flag, rest, t);
    }
  }

  // ---------------------------------------------------------------------------------------------
  // Whole tables.

  /** A table of the destination, if it is there. */
  function View(db: Database, t: string): Option<Table> {
    if t in db.tables then Some(db.tables[t]) else None
  }

  lemma {:induction false} GrowthIsLocal(db: Database, other: Database, table: string, missing: seq<ColumnSpec>)
    requires table in db.tables && View(db, table) == View(other, table)
    ensures View(Final(db, Growth(db, table, missing)), table) ==
            View(Final(other, Growth(other, table, missing)), table)
    ensures forall t :: t != table ==> View(Final(db, Growth(db, table, missing)), t) == View(db, t)
    decreases |missing|
  {
    hide Exec;
    if missing != [] {
      var next, next' := ExecIn(db, table, Add(missing[0])), ExecIn(other, table, Add(missing[0]));
      GrowthIsLocal(next, next', table, missing[1..]);
    }
  }

  lemma EnsureIsLocal(db: Database, other: Database, flag: string, table: string, columns: seq<ColumnSpec>)
    requires View(db, table) == View(other, table)
    ensures var x, y := Ensure(db, flag, table, columns), Ensure(other, flag, table, columns);
            && x.ok == y.ok && View(Final(db, x.states), table) == View(Final(other, y.states), table)
            && forall t :: t != table ==> View(Final(db, x.states), t) == View(db, t)
  {
    hide Declarable, Growth;
    var key := KeyFor(db, flag, table);
    var made, made' := Create(db, table, columns, key), Create(other, table, columns, key);
    var got := made.tables[table].columns;
    if got <= columns {
      GrowthIsLocal(made, made', table, columns[|got|..]);
    }
  }

  /** A declaration, drop or snapshot row sees its own table and no other, and no cursor. */
  lemma BypassIsLocal(db: Database, other: Database, flag: string, e: Event)
    requires e.change.BypassesCursor() && View(db, e.table) == View(other, e.table)
    ensures var x, y := Step(db, flag, e), Step(other, flag, e);
            && x.ok == y.ok && View(Final(db, x.states), e.table) == View(Final(other, y.states), e.table)
            && (forall t :: t != e.table ==> View(Final(db, x.states), t) == View(db, t))
            && Final(db, x.states).checkpoint == db.checkpoint
  {
    CursorPath.ApplyKeepsCheckpoint(db, flag, e);
    hide Ensure, Exec, PutOf, NamesRow, InferredColumns;
    if e.change.CreateTable? {
      EnsureIsLocal(db, other, flag, e.table, DuckColumns(e.change.columns));
    } else if e.change.Read? {
      EnsureIsLocal(db, other, flag, e.table, InferredColumns(e.change.Image()));
    }
  }

  /** The declarations, drops and snapshot rows of one table. */
  function Of(t: string, done: seq<Event>): (r: seq<Event>)
    ensures forall e :: e in r <==> e in done && e.change.BypassesCursor() && e.table == t
  {
    if done == [] then []
    else
      var rest := Of(t, done[1..]);
      if done[0].change.BypassesCursor() && done[0].table == t then [done[0]] + rest else rest
  }

  lemma CoveredIsNothing(db: Database, flag: string, e: Event)
    requires !e.change.BypassesCursor() && Covers(db, [e])
    ensures Step(db, flag, e) == Effect([], true)
  {
    assert e in [e];
  }

  /** Re-delivery does to each table what the table's own declarations, drops and snapshot rows do. */
  lemma {:induction false} Projected(db: Database, other: Database, flag: string, done: seq<Event>, t: string)
    requires AllEvolve(done) && Covers(db, done) && View(db, t) == View(other, t) && Outcome(db, flag, done).1
    ensures Outcome(other, flag, Of(t, done)).1
    ensures View(Outcome(db, flag, done).0, t) == View(Outcome(other, flag, Of(t, done)).0, t)
    ensures Outcome(db, flag, done).0.checkpoint == db.checkpoint
    decreases |done|
  {
    hide Step, Run, Outcome, Skips, Evolves, View;
    if done == [] {
      CursorPath.OutcomeNil(db, flag);
      CursorPath.OutcomeNil(other, flag);
    } else {
      var e, rest := done[0], done[1..];
      assert done == [e] + rest;
      OutcomeCons(db, flag, e, rest);
      CoversAfter(db, flag, e, rest);
      var next := Final(db, Step(db, flag, e).states);
      if !e.change.BypassesCursor() {
        CoveredIsNothing(db, flag, e);
        Projected(next, other, flag, rest, t);
      } else if e.table != t {
        BypassIsLocal(db, db, flag, e);
        Projected(next, other, flag, rest, t);
      } else {
        BypassIsLocal(db, other, flag, e);
        OutcomeCons(other, flag, e, Of(t, rest));
        Projected(next, Final(other, Step(other, flag, e).states), flag, rest, t);
      }
    }
  }

  /** What a table's declarations and snapshot rows since its last drop build on their own. */
  function Built(flag: string, done: seq<Event>, t: string): Option<Table>
    requires Dropped(done, t)
  {
    View(Outcome(Database(map[], map[]), flag, Of(t, SinceDrop(done, t))).0, t)
  }

  lemma {:induction false} DroppedIsBuilt(db: Database, flag: string, done: seq<Event>, t: string)
    requires AllEvolve(done) && Covers(db, done) && Dropped(done, t) && Outcome(db, flag, done).1
    ensures View(Outcome(db, flag, done).0, t) == Built(flag, done, t)
    decreases |done|
  {
    hide Step, Run, Outcome, Skips, Evolves, Of;
    var e, rest := done[0], done[1..];
    assert done == [e] + rest;
    OutcomeCons(db, flag, e, rest);
    CoversAfter(db, flag, e, rest);
    var next := Final(db, Step(db, flag, e).states);
    if Dropped(rest, t) {
      DroppedIsBuilt(next, flag, rest, t);
    } else {
      DropLeavesNothing(db, flag, e);
      Projected(next, Database(map[], map[]), flag, rest, t);
    }
  }

  /** The events of a table that leave it as it is: they rebuild it after a drop, or describe it. */
  ghost predicate Reproduced(db: Database, flag: string, done: seq<Event>, t: string) {
    if Dropped(done, t) then View(db, t) == Built(flag, done, t)
    else forall e :: e in done && e.change.BypassesCursor() && e.table == t ==> Describes(db, e)
  }

  lemma OneTableReproduced(db: Database, flag: string, done: seq<Event>, t: string)
    requires AllEvolve(done) && Covers(db, done) && Outcome(db, flag, done).1
    ensures View(Outcome(db, flag, done).0, t) == View(db, t) <==> Reproduced(db, flag, done, t)
  {
    hide Outcome, Run, Evolves, Describes, View;
    if Dropped(done, t) {
      DroppedIsBuilt(db, flag, done, t);
    } else {
      var own := Of(t, done);
      Projected(db, db, flag, done, t);
      RedeliveryIsNoOpIff(db, flag, own);
      OnlyItsTable(db, flag, own, t);
    }
  }

  lemma OnlyItsTable(db: Database, flag: string, own: seq<Event>, t: string)
    requires AllEvolve(own) && Covers(db, own) && Outcome(db, flag, own).1
    requires forall e :: e in own ==> e.change.BypassesCursor() && e.table == t
    ensures Outcome(db, flag, own).0 == db <==> View(Outcome(db, flag, own).0, t) == View(db, t)
  {
    hide Outcome, Run, Evolves, View, Of;
    var end := Outcome(db, flag, own).0;
    forall u | u != t
      ensures View(end, u) == View(db, u)
    {
      Projected(db, db, flag, own, u);
      assert Of(u, own) == [] by { NoneOf(u, own); }
      CursorPath.OutcomeNil(db, flag);
    }
    Projected(db, db, flag, own, t);
    SameViews(end, db);
  }

  lemma {:induction false} NoneOf(u: string, own: seq<Event>)
    requires forall e :: e in own ==> e.table != u
    ensures Of(u, own) == []
    decreases |own|
  {
    if own != [] {
      NoneOf(u, own[1..]);
    }
  }

  lemma SameViews(a: Database, b: Database)
    requires a.checkpoint == b.checkpoint
    ensures a == b <==> forall t :: View(a, t) == View(b, t)
  {
    if forall t :: View(a, t) == View(b, t) {
      forall t | t in a.tables
        ensures t in b.tables && a.tables[t] == b.tables[t]
      {
        assert View(a, t) == View(b, t);
      }
      forall t | t in b.tables
        ensures t in a.tables
      {
        assert View(a, t) == View(b, t);
      }
      assert a.tables == b.tables;
    }
  }

  /**
   A completed re-delivery, drops included, leaves the database as it was exactly when every table is
   reproduced: one dropped among the events is what those since its last drop build from nothing, and
   the events of any other still describe it.
   */
  lemma CompletedIsNoOpIff(db: Database, flag: string, done: seq<Event>)
    requires AllEvolve(done) && Covers(db, done) && Outcome(db, flag, done).1
    ensures Outcome(db, flag, done).0 == db <==> forall t :: Reproduced(db, flag, done, t)
  {
    hide Outcome, Run, Evolves, Reproduced, View;
    var end := Outcome(db, flag, done).0;
    forall t
      ensures View(end, t) == View(db, t) <==> Reproduced(db, flag, done, t)
    {
      OneTableReproduced(db, flag, done, t);
    }
    Projected(db, db, flag, done, "");
    SameViews(end, db);
  }

  /** The table that declarations alone build: none, or the last one's shape with no row in it. */
  function Declared(flag: string, own: seq<Event>): Option<Table>
    requires forall e :: e in own ==> e.change.CreateTable?
  {
    if own == [] then None
    else
      assert own[|own| - 1] in own;
      Some(Table(DuckColumns(own[|own| - 1].change.columns), flag, map[]))
  }

  lemma {:induction false} DeclarationsBuild(flag: string, own: seq<Event>, t: string)
    requires (forall e :: e in own ==> e.change.CreateTable? && e.table == t)
    requires Outcome(Database(map[], map[]), flag, own).1
    ensures View(Outcome(Database(map[], map[]), flag, own).0, t) == Declared(flag, own)
    decreases |own|
  {
    hide Outcome, Run, Step;
    var empty := Database(map[], map[]);
    if own == [] {
      CursorPath.OutcomeNil(empty, flag);
    } else {
      var before, e := own[..|own| - 1], own[|own| - 1];
      assert own == before + [e];
      CursorPath.OutcomeSnoc(empty, flag, before, e);
      DeclarationsBuild(flag, before, t);
      DeclarationBuilds(Outcome(empty, flag, before).0, flag, e);
    }
  }

  lemma DeclarationBuilds(db: Database, flag: string, e: Event)
    requires e.change.CreateTable? && Step(db, flag, e).ok
    requires e.table in db.tables ==> db.tables[e.table].key == flag && db.tables[e.table].rows == map[]
    ensures View(Final(db, Step(db, flag, e).states), e.table) ==
            Some(Table(DuckColumns(e.change.columns), flag, map[]))
  {
    hide Ensure;
    EnsureSettles(db, flag, e.table, DuckColumns(e.change.columns));
    EnsureKeepsNoRows(db, flag, e.table, DuckColumns(e.change.columns), e.table);
  }

  /**
   Where no snapshot row follows the last drop, what is built is no table, or one with no rows and the
   shape of the last declaration since.
   */
  lemma BuiltFromDeclarations(db: Database, flag: string, done: seq<Event>, t: string)
    requires AllEvolve(done) && Covers(db, done) && Dropped(done, t) && Outcome(db, flag, done).1
    requires !Snapshots(SinceDrop(done, t), t)
    ensures (forall e :: e in Of(t, SinceDrop(done, t)) ==> e.change.CreateTable?)
    ensures Built(flag, done, t) == Declared(flag, Of(t, SinceDrop(done, t)))
  {
    hide Outcome, Run, Evolves, Of;
    var own := Of(t, SinceDrop(done, t));
    NoDropSince(done, t);
    SinceCompletes(db, flag, done, t);
    assert forall e :: e in own ==> e.change.CreateTable?;
    DeclarationsBuild(flag, own, t);
  }

  lemma {:induction false} NoDropSince(done: seq<Event>, t: string)
    requires Dropped(done, t)
    ensures !Dropped(SinceDrop(done, t), t)
    decreases |done|
  {
    if Dropped(done[1..], t) {
      NoDropSince(done[1..], t);
    }
  }

  lemma {:induction false} SinceCompletes(db: Database, flag: string, done: seq<Event>, t: string)
    requires AllEvolve(done) && Covers(db, done) && Dropped(done, t) && Outcome(db, flag, done).1
    ensures Outcome(Database(map[], map[]), flag, Of(t, SinceDrop(done, t))).1
    decreases |done|
  {
    hide Step, Run, Outcome, Skips, Evolves, Of;
    var e, rest := done[0], done[1..];
    assert done == [e] + rest;
    OutcomeCons(db, flag, e, rest);
    CoversAfter(db, flag, e, rest);
    var next := Final(db, Step(db, flag, e).states);
    if Dropped(rest, t) {
      SinceCompletes(next, flag, rest, t);
    } else {
      DropLeavesNothing(db, flag, e);
      Projected(next, Database(map[], map[]), flag, rest, t);
    }
  }

  // ---------------------------------------------------------------------------------------------

  /** A table dropped, declared again, and written to. */
  const RECREATED := [
    Event("t", DropTable, 1, 1, 2, None),
    Event("t", CreateTable(ONE_COLUMN), 2, 2, 3, None),
    Event("t", Insert(map["id" := Number("1")]), 5, 5, 6, None)]

  lemma DropStep()
    ensures Step(Database(map[], map[]), "id", RECREATED[0]) == Effect([Database(map[], map[])], true)
  {
    var none: map<string, Table> := map[];
    assert none - {"t"} == none;
  }

  lemma InsertStep()
    ensures var step := Step(MADE, "id", RECREATED[2]); var end := Final(MADE, step.states);
            step.ok && Skips(end, RECREATED[2]) && !NoRows(end, "t")
  {
    var e := RECREATED[2];
    assert ApplyRow(MADE, "id", e).ok;
    ApplyRowSettles(MADE, "id", e);
    LandedIsSkipped(MADE, "id", e);
  }

  /** The database the feed leaves: the row is in, and its position recorded. */
  lemma RecreatedLands() returns (end: Database)
    ensures Outcome(Database(map[], map[]), "id", RECREATED) == (end, true)
    ensures Skips(end, RECREATED[2]) && !NoRows(end, "t")
  {
    var empty := Database(map[], map[]);
    end := Final(MADE, Step(MADE, "id", RECREATED[2]).states);
    assert RECREATED == [RECREATED[0]] + ([RECREATED[1]] + ([RECREATED[2]] + []));
    DropStep();
    SecondDeclaration();
    InsertStep();
    hide Step, Run, Outcome, NoRows, Skips;
    OutcomeCons(empty, "id", RECREATED[0], [RECREATED[1]] + ([RECREATED[2]] + []));
    OutcomeCons(empty, "id", RECREATED[1], [RECREATED[2]] + []);
    OutcomeCons(MADE, "id", RECREATED[2], []);
    CursorPath.OutcomeNil(end, "id");
  }

  lemma RecreatedIs()
    ensures AllEvolve(RECREATED) && Dropped(RECREATED, "t") && !Snapshots(SinceDrop(RECREATED, "t"), "t")
    ensures forall e :: e in RECREATED && !e.change.BypassesCursor() ==> e == RECREATED[2]
  {
    assert RECREATED[0] in RECREATED && Drops(RECREATED[0], "t");
    assert forall e :: e in RECREATED[1..] ==> e == RECREATED[1] || e == RECREATED[2];
  }

  /** Running that feed a second time over its own result loses the row. */
  lemma ReplayAfterDropLosesTheRow()
    ensures var end := Outcome(Database(map[], map[]), "id", RECREATED);
            end.1 && !NoRows(end.0, "t") && Outcome(end.0, "id", RECREATED) != end
  {
    hide Step, Run, Outcome, NoRows, Skips, Evolves, SinceDrop, Snapshots, Dropped;
    var end := RecreatedLands();
    RecreatedIs();
    if Outcome(end, "id", RECREATED).1 {
      RowsAreLostIff(end, "id", RECREATED, "t");
    }
  }

  lemma SecondDeclaration()
    ensures Step(Database(map[], map[]), "id", RECREATED[1]) == Effect([MADE], true)
  {
    FirstStep();
    assert RECREATED[1].change == GROWN[0].change && RECREATED[1].table == GROWN[0].table;
  }
}
