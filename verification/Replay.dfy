/**
 At-least-once delivery over whole runs: restarting a killed run from the first line converges, and
 the resume cursor is only a fast path in front of the ordering guard.
 */
module Replay {
  import opened Feed
  import opened Destination
  import opened DuckSpec

  /** The one shape each table is declared with, as the destination spells it. */
  type Shapes = map<string, seq<ColumnSpec>>

  /** A row event, or a declaration of the table's unchanged shape. */
  predicate Fits(shapes: Shapes, e: Event) {
    || e.change.IsRow()
    || (e.change.CreateTable? && e.table in shapes && DuckColumns(e.change.columns) == shapes[e.table])
  }

  ghost predicate Replayable(shapes: Shapes, feed: seq<Event>) {
    forall e :: e in feed ==> Fits(shapes, e)
  }

  /** The database a run leaves, and whether it got to the end of its feed. */
  function Outcome(db: Database, flag: string, feed: seq<Event>): (Database, bool) {
    (Final(db, Run(db, flag, feed).states), Run(db, flag, feed).ok)
  }

  // ---------------------------------------------------------------------------------------------
  // Events a database has already taken in.

  ghost predicate RowSettled(t: Table, e: Event)
    requires e.change.IsRow()
  {
    && NamesRow(t, e.change.Image())
    && e.change.Image()[t.key] in t.rows
    && !Above(StampOf(e), t.rows[e.change.Image()[t.key]].stamp)
  }

  /** Landing the event again changes nothing, with no help from the cursor. */
  ghost predicate Settled(db: Database, e: Event) {
    && e.table in db.tables
    && (e.change.IsRow() ==>
          && RowSettled(db.tables[e.table], e)
          && (e.change.Read? || (e.table in db.checkpoint && !Above(StampOf(e), db.checkpoint[e.table]))))
    && (e.change.CreateTable? ==>
          && db.tables[e.table].columns == DuckColumns(e.change.columns)
          && Declarable(db.tables[e.table].columns, db.tables[e.table].key))
  }

  ghost predicate Absorbed(db: Database, e: Event) {
    Skips(db, e) || Settled(db, e)
  }

  ghost predicate Still(db: Database, effect: Effect) {
    effect.ok && Final(db, effect.states) == db
  }

  lemma SettledLandsStill(db: Database, flag: string, e: Event)
    requires e.change.IsRow() || e.change.CreateTable?
    requires Settled(db, e)
    ensures Still(db, Land(db, flag, e))
  {
  }

  lemma AbsorbedStepsStill(db: Database, flag: string, e: Event)
    requires e.change.IsRow() || e.change.CreateTable?
    requires Absorbed(db, e)
    ensures Still(db, Step(db, flag, e))
  {
  }

  // ---------------------------------------------------------------------------------------------
  // What later databases keep.

  ghost predicate LaterTable(t: Table, u: Table) {
    && u.key == t.key
    && (forall k :: k in t.rows ==> k in u.rows && !Above(t.rows[k].stamp, u.rows[k].stamp))
  }

  /** Tables persist with their rows at no smaller stamp, and no cursor has moved back. */
  ghost predicate Later(db: Database, next: Database) {
    && (forall n :: n in db.tables ==> n in next.tables && LaterTable(db.tables[n], next.tables[n]))
    && (forall n :: n in db.checkpoint ==> n in next.checkpoint && !Above(db.checkpoint[n], next.checkpoint[n]))
    && (forall n :: !Above(Cursor(db, n), Cursor(next, n)))
  }

  lemma LaterTransitive(a: Database, b: Database, c: Database)
    requires Later(a, b) && Later(b, c)
    ensures Later(a, c)
  {
  }

  lemma LaterReflexive(db: Database)
    ensures Later(db, db)
  {
  }

  lemma ExecIsLater(db: Database, table: string, s: Statement)
    requires table in db.tables && (s.Put? || s.Add?)
    ensures Later(db, ExecIn(db, table, s))
  {
  }

  lemma {:induction false} GrowthIsLater(db: Database, table: string, missing: seq<ColumnSpec>, s: Database)
    requires table in db.tables && s in Growth(db, table, missing)
    ensures Later(db, s) && s.checkpoint == db.checkpoint
    decreases |missing|
  {
    var next := ExecIn(db, table, Add(missing[0]));
    ExecIsLater(db, table, Add(missing[0]));
    if s != next {
      GrowthIsLater(next, table, missing[1..], s);
      LaterTransitive(db, next, s);
    }
  }

  lemma EnsureIsLater(db: Database, flag: string, table: string, columns: seq<ColumnSpec>, s: Database)
    requires s in Ensure(db, flag, table, columns).states
    ensures Later(db, s) && s.checkpoint == db.checkpoint
  {
    var key := KeyFor(db, flag, table);
    var created := Create(db, table, columns, key);
    LaterReflexive(db);
    assert Later(db, created);
    var got := created.tables[table].columns;
    if s != created {
      GrowthIsLater(created, table, columns[|got|..], s);
      LaterTransitive(db, created, s);
    }
  }

  lemma SaveIsLater(db: Database, e: Event)
    requires !Skips(db, e) && !e.change.BypassesCursor()
    ensures Later(db, SaveCursor(db, e.table, StampOf(e)))
  {
  }

  /** A position a signed column holds as it is. */
  predicate Storable(e: Event) {
    e.commitLsn < 0x8000_0000_0000_0000 && e.lsn < 0x8000_0000_0000_0000
  }

  /** An event whose position has been recorded is skipped from then on. */
  lemma SaveSkips(db: Database, e: Event)
    requires Storable(e) && !e.change.BypassesCursor() && !Skips(db, e)
    ensures Skips(SaveCursor(db, e.table, StampOf(e)), e)
  {
  }

  lemma ApplyRowIsLater(db: Database, flag: string, e: Event, s: Database)
    requires e.change.IsRow()
    requires s in ApplyRow(db, flag, e).states
    ensures Later(db, s) && s.checkpoint == db.checkpoint
  {
    var columns := InferredColumns(e.change.Image());
    var states := if e.table in db.tables then [] else Ensure(db, flag, e.table, columns).states;
    if s in states {
      EnsureIsLater(db, flag, e.table, columns, s);
    } else {
      var at := Final(db, states);
      LaterReflexive(db);
      if at in states {
        EnsureIsLater(db, flag, e.table, columns, at);
      }
      ExecIsLater(at, e.table, PutOf(at.tables[e.table], e));
      LaterTransitive(db, at, s);
    }
  }

  lemma ApplyIsLater(db: Database, flag: string, e: Event, s: Database)
    requires e.change.IsRow() || e.change.CreateTable?
    requires s in Apply(db, flag, e).states
    ensures Later(db, s) && s.checkpoint == db.checkpoint
  {
    if e.change.CreateTable? {
      EnsureIsLater(db, flag, e.table, DuckColumns(e.change.columns), s);
    } else {
      ApplyRowIsLater(db, flag, e, s);
    }
  }

  /** Every state inside a step is later than the one it started from. */
  lemma StepIsLater(db: Database, flag: string, e: Event, s: Database)
    requires e.change.IsRow() || e.change.CreateTable?
    requires s in Step(db, flag, e).states
    ensures Later(db, s)
  {
    var states := Apply(db, flag, e).states;
    if s in states {
      ApplyIsLater(db, flag, e, s);
    } else {
      var at := Final(db, states);
      LaterReflexive(db);
      if at in states {
        ApplyIsLater(db, flag, e, at);
      }
      SaveIsLater(at, e);
      LaterTransitive(db, at, s);
    }
  }

  // --- shapes ---------------------------------------------------------------------------------

  /** A table that exists keeps its columns. */
  ghost predicate ShapeKept(db: Database, next: Database, name: string) {
    name in db.tables ==> name in next.tables && next.tables[name].columns == db.tables[name].columns
  }

  lemma {:induction false} GrowthKeepsShape(
    db: Database, table: string, missing: seq<ColumnSpec>, s: Database, name: string)
    requires table in db.tables && s in Growth(db, table, missing)
    ensures name != table ==> ShapeKept(db, s, name)
    decreases |missing|
  {
    var next := ExecIn(db, table, Add(missing[0]));
    if s != next {
      GrowthKeepsShape(next, table, missing[1..], s, name);
    }
  }

  lemma EnsureKeepsShape(db: Database, flag: string, table: string, columns: seq<ColumnSpec>, s: Database, name: string)
    requires s in Ensure(db, flag, table, columns).states
    ensures name != table || table !in db.tables || db.tables[table].columns == columns ==> ShapeKept(db, s, name)
  {
    var created := Create(db, table, columns, KeyFor(db, flag, table));
    var got := created.tables[table].columns;
    if s != created {
      assert s in Growth(created, table, columns[|got|..]);
      GrowthKeepsShape(created, table, columns[|got|..], s, name);
    }
  }

  /** A step keeps the shape of every table its event does not declare differently. */
  lemma StepKeepsShape(db: Database, flag: string, e: Event, s: Database, name: string)
    requires e.change.IsRow() || e.change.CreateTable?
    requires s in Step(db, flag, e).states
    requires e.change.CreateTable? && e.table == name && name in db.tables ==>
               db.tables[name].columns == DuckColumns(e.change.columns)
    ensures ShapeKept(db, s, name)
  {
    hide Declarable;
    var applied := Apply(db, flag, e).states;
    var x := if s in applied then s else Final(db, applied);
    assert s.tables == x.tables;
    if e.change.CreateTable? {
      if x in applied {
        EnsureKeepsShape(db, flag, e.table, DuckColumns(e.change.columns), x, name);
      }
    } else if e.table !in db.tables {
      var ensured := Ensure(db, flag, e.table, InferredColumns(e.change.Image())).states;
      var at := Final(db, ensured);
      if x in ensured {
        EnsureKeepsShape(db, flag, e.table, InferredColumns(e.change.Image()), x, name);
      } else if at in ensured {
        EnsureKeepsShape(db, flag, e.table, InferredColumns(e.change.Image()), at, name);
      }
    }
  }

  /** An event taken in stays taken in by every later database with its declared shape. */
  lemma SettledKept(db: Database, next: Database, a: Event)
    requires a.change.IsRow() || a.change.CreateTable?
    requires Later(db, next) && (a.change.CreateTable? ==> ShapeKept(db, next, a.table))
    ensures Settled(db, a) ==> Settled(next, a)
    ensures Skips(db, a) ==> Skips(next, a)
  {
  }

  lemma StepKeepsAbsorbed(shapes: Shapes, db: Database, flag: string, e: Event, s: Database, a: Event)
    requires Fits(shapes, e) && Fits(shapes, a)
    requires s in Step(db, flag, e).states
    ensures Absorbed(db, a) ==> Absorbed(s, a)
    ensures Settled(db, a) ==> Settled(s, a)
  {
    StepIsLater(db, flag, e, s);
    if Settled(db, a) && a.change.CreateTable? {
      StepKeepsShape(db, flag, e, s, a.table);
    }
    if Settled(db, a) || !a.change.CreateTable? {
      SettledKept(db, s, a);
    }
  }

  // ---------------------------------------------------------------------------------------------
  // Resuming a step that was killed between two of its statements.

  lemma AddAppends(db: Database, table: string, c: ColumnSpec)
    requires table in db.tables
    ensures ExecIn(db, table, Add(c)).tables[table].columns == db.tables[table].columns + [c]
    ensures ExecIn(db, table, Add(c)).tables[table].key == db.tables[table].key
  {
  }

  /** The state after i + 1 statements of a catch-up continues it exactly where it was killed. */
  lemma {:induction false} GrowthResumes(db: Database, table: string, missing: seq<ColumnSpec>, i: nat)
    requires table in db.tables && i < |missing|
    ensures Growth(db, table, missing)[i].tables[table].columns == db.tables[table].columns + missing[..i + 1]
    ensures Growth(db, table, missing)[i].tables[table].key == db.tables[table].key
    ensures Growth(Growth(db, table, missing)[i], table, missing[i + 1..]) == Growth(db, table, missing)[i + 1..]
    decreases |missing|
  {
    hide Exec;
    var next := ExecIn(db, table, Add(missing[0]));
    AddAppends(db, table, missing[0]);
    if i > 0 {
      GrowthResumes(next, table, missing[1..], i - 1);
      assert missing[1..][i..] == missing[i + 1..];
      assert [missing[0]] + missing[1..][..i] == missing[..i + 1];
    } else {
      assert missing[..1] == [missing[0]];
    }
  }

  /** Where `Ensure` ends once the table is there with its columns a prefix of the declaration. */
  function Reconciled(db: Database, table: string, columns: seq<ColumnSpec>): seq<Database>
    requires table in db.tables && db.tables[table].columns <= columns
  {
    Growth(db, table, columns[|db.tables[table].columns|..])
  }

  lemma EnsureOnExisting(db: Database, flag: string, table: string, columns: seq<ColumnSpec>)
    requires table in db.tables && Declarable(columns, db.tables[table].key)
    requires db.tables[table].columns <= columns
    ensures Ensure(db, flag, table, columns) == Effect([db] + Reconciled(db, table, columns), true)
  {
  }

  lemma CatchUpResumes(db: Database, flag: string, table: string, columns: seq<ColumnSpec>, i: nat)
    requires table in db.tables && Declarable(columns, db.tables[table].key)
    requires db.tables[table].columns <= columns && i < |Reconciled(db, table, columns)|
    ensures var states := Reconciled(db, table, columns);
            Ensure(states[i], flag, table, columns) == Effect([states[i]] + states[i + 1..], true)
  {
    hide Declarable, Exec;
    var got, states := db.tables[table].columns, Reconciled(db, table, columns);
    var missing := columns[|got|..];
    GrowthResumes(db, table, missing, i);
    assert got + missing[..i + 1] == columns[..|got| + i + 1];
    assert columns[|got| + i + 1..] == missing[i + 1..];
    EnsureOnExisting(states[i], flag, table, columns);
  }

  lemma EnsureResumes(db: Database, flag: string, table: string, columns: seq<ColumnSpec>, s: Database)
    requires s in Ensure(db, flag, table, columns).states
    ensures Final(s, Ensure(s, flag, table, columns).states) == Final(db, Ensure(db, flag, table, columns).states)
    ensures Ensure(s, flag, table, columns).ok == Ensure(db, flag, table, columns).ok
  {
    hide Declarable, Growth;
    var created := Create(db, table, columns, KeyFor(db, flag, table));
    if s != created {
      EnsureOnExisting(created, flag, table, columns);
      var states := Reconciled(created, table, columns);
      var i :| 0 <= i < |states| && states[i] == s;
      CatchUpResumes(created, flag, table, columns, i);
    }
  }

  lemma PutAgain(t: Table, e: Event)
    requires e.change.IsRow() && NamesRow(t, e.change.Image())
    ensures var u := Exec(t, PutOf(t, e)); RowSettled(u, e) && Exec(u, PutOf(u, e)) == u
  {
  }

  lemma ApplyToHeldRow(db: Database, flag: string, e: Event)
    requires e.change.IsRow() && e.table in db.tables && RowSettled(db.tables[e.table], e)
    ensures ApplyRow(db, flag, e) == Effect([db], true)
  {
    var t := db.tables[e.table];
    assert Exec(t, PutOf(t, e)) == t;
    assert ExecIn(db, e.table, PutOf(t, e)) == db;
  }

  /** Inference creates the table it then finds equal: one statement. */
  lemma InferenceIsOneStatement(db: Database, flag: string, table: string, columns: seq<ColumnSpec>)
    requires table !in db.tables
    ensures |Ensure(db, flag, table, columns).states| <= 1
    ensures forall s :: s in Ensure(db, flag, table, columns).states ==> table in s.tables
  {
  }

  lemma ApplyRowResumes(db: Database, flag: string, e: Event, s: Database)
    requires e.change.IsRow() && s in ApplyRow(db, flag, e).states
    ensures Final(s, ApplyRow(s, flag, e).states) == Final(db, ApplyRow(db, flag, e).states)
    ensures ApplyRow(s, flag, e).ok == ApplyRow(db, flag, e).ok
  {
    hide Declarable;
    var columns := InferredColumns(e.change.Image());
    var ensured := if e.table in db.tables then Effect([], true) else Ensure(db, flag, e.table, columns);
    if e.table !in db.tables {
      InferenceIsOneStatement(db, flag, e.table, columns);
    }
    var at := Final(db, ensured.states);
    if s in ensured.states {
      assert ensured.states == [s] && at == s;
    } else {
      PutAgain(at.tables[e.table], e);
      ApplyToHeldRow(s, flag, e);
    }
  }

  lemma GrowthOfNothing(db: Database, table: string)
    requires table in db.tables
    ensures Growth(db, table, []) == []
  {
  }

  lemma EnsureSettles(db: Database, flag: string, table: string, columns: seq<ColumnSpec>)
    requires Ensure(db, flag, table, columns).ok
    ensures var r := Final(db, Ensure(db, flag, table, columns).states);
            table in r.tables && r.tables[table].columns == columns && r.tables[table].key == KeyFor(db, flag, table)
  {
    hide Declarable, Growth, Exec;
    var created := Create(db, table, columns, KeyFor(db, flag, table));
    var got := created.tables[table].columns;
    GrowthOfNothing(created, table);
    if got != columns {
      var missing := columns[|got|..];
      GrowthResumes(created, table, missing, |missing| - 1);
      assert missing[..|missing|] == missing && got + missing == columns;
    }
  }

  /** A completed step has taken its event in, with no help from the cursor unless it was skipped. */
  lemma LandSettles(db: Database, flag: string, e: Event)
    requires e.change.IsRow() || e.change.CreateTable?
    requires Land(db, flag, e).ok
    ensures Settled(Final(db, Land(db, flag, e).states), e)
  {
    hide Declarable;
    if e.change.CreateTable? {
      EnsureSettles(db, flag, e.table, DuckColumns(e.change.columns));
    } else {
      ApplyRowSettles(db, flag, e);
    }
  }

  lemma ApplyRowSettles(db: Database, flag: string, e: Event)
    requires e.change.IsRow() && ApplyRow(db, flag, e).ok
    ensures var r := Final(db, ApplyRow(db, flag, e).states); e.table in r.tables && RowSettled(r.tables[e.table], e)
  {
  }

  /** Running a killed step again from wherever it stopped reaches the same end. */
  lemma StepResumes(db: Database, flag: string, e: Event, s: Database)
    requires e.change.IsRow() || e.change.CreateTable?
    requires s in Step(db, flag, e).states
    ensures Final(s, Step(s, flag, e).states) == Final(db, Step(db, flag, e).states)
    ensures Step(s, flag, e).ok == Step(db, flag, e).ok
  {
    var applied := Apply(db, flag, e);
    if s in applied.states {
      ApplyIsLater(db, flag, e, s);
      assert !Skips(s, e);
      if e.change.CreateTable? {
        EnsureResumes(db, flag, e.table, DuckColumns(e.change.columns), s);
      } else {
        ApplyRowResumes(db, flag, e, s);
      }
    } else {
      LandSettles(db, flag, e);
      AbsorbedStepsStill(s, flag, e);
    }
  }

  // ---------------------------------------------------------------------------------------------
  // Crash-restart convergence.

  ghost predicate AllAbsorbed(db: Database, events: seq<Event>) {
    forall a :: a in events ==> Absorbed(db, a)
  }

  lemma OutcomeCons(db: Database, flag: string, e: Event, rest: seq<Event>)
    ensures var step := Step(db, flag, e);
            Outcome(db, flag, [e] + rest) ==
            if step.ok then Outcome(Final(db, step.states), flag, rest) else (Final(db, step.states), false)
  {
    hide Step;
    assert ([e] + rest)[1..] == rest;
  }

  /** Re-delivering events a database has taken in is a no-op. */
  lemma {:induction false} AbsorbedPrefixIsStill(
    shapes: Shapes, db: Database, flag: string, done: seq<Event>, rest: seq<Event>)
    requires Replayable(shapes, done) && AllAbsorbed(db, done)
    ensures Outcome(db, flag, done + rest) == Outcome(db, flag, rest)
    decreases |done|
  {
    hide Step, Run, Outcome;
    if done == [] {
      assert done + rest == rest;
    } else {
      assert Fits(shapes, done[0]);
      AbsorbedStepsStill(db, flag, done[0]);
      AbsorbedPrefixIsStill(shapes, db, flag, done[1..], rest);
      OutcomeCons(db, flag, done[0], done[1..] + rest);
      assert done + rest == [done[0]] + (done[1..] + rest);
    }
  }

  lemma StepKeepsAllAbsorbed(shapes: Shapes, db: Database, flag: string, e: Event, s: Database, done: seq<Event>)
    requires Fits(shapes, e) && Replayable(shapes, done) && AllAbsorbed(db, done)
    requires s in Step(db, flag, e).states
    ensures AllAbsorbed(s, done)
  {
    forall a | a in done
      ensures Absorbed(s, a)
    {
      StepKeepsAbsorbed(shapes, db, flag, e, s, a);
    }
  }

  lemma RestartInStep(
    shapes: Shapes, db: Database, flag: string, done: seq<Event>, e: Event, rest: seq<Event>, s: Database)
    requires Fits(shapes, e) && Replayable(shapes, done) && AllAbsorbed(db, done)
    requires s in Step(db, flag, e).states
    ensures Outcome(s, flag, done + ([e] + rest)) == Outcome(db, flag, [e] + rest)
  {
    StepKeepsAllAbsorbed(shapes, db, flag, e, s, done);
    AbsorbedPrefixIsStill(shapes, s, flag, done, [e] + rest);
    StepResumes(db, flag, e, s);
    OutcomeCons(db, flag, e, rest);
    OutcomeCons(s, flag, e, rest);
  }

  lemma NextAbsorbed(shapes: Shapes, db: Database, flag: string, done: seq<Event>, e: Event)
    requires Fits(shapes, e) && Replayable(shapes, done) && AllAbsorbed(db, done)
    requires Step(db, flag, e).ok
    ensures AllAbsorbed(Final(db, Step(db, flag, e).states), done + [e])
  {
    var step := Step(db, flag, e);
    if step.states != [] {
      StepKeepsAllAbsorbed(shapes, db, flag, e, Final(db, step.states), done);
    }
    if !Skips(db, e) {
      LandSettles(db, flag, e);
    }
  }

  /** The states of a run after its first event are those of a run of the rest. */
  lemma LaterStates(db: Database, flag: string, e: Event, rest: seq<Event>, s: Database)
    requires s in Run(db, flag, [e] + rest).states && s !in Step(db, flag, e).states
    ensures Step(db, flag, e).ok && s in Run(Final(db, Step(db, flag, e).states), flag, rest).states
  {
  }

  lemma {:induction false} Restart(
    shapes: Shapes, db: Database, flag: string, done: seq<Event>, feed: seq<Event>, s: Database)
    requires Replayable(shapes, done) && Replayable(shapes, feed) && AllAbsorbed(db, done)
    requires s == db || s in Run(db, flag, feed).states
    ensures Outcome(s, flag, done + feed) == Outcome(db, flag, feed)
    decreases |feed|
  {
    hide Step, Outcome, Absorbed, Fits;
    if s == db {
      AbsorbedPrefixIsStill(shapes, db, flag, done, feed);
    } else {
      var e, rest := feed[0], feed[1..];
      assert feed == [e] + rest;
      if s in Step(db, flag, e).states {
        RestartInStep(shapes, db, flag, done, e, rest, s);
      } else {
        LaterStates(db, flag, e, rest, s);
        NextAbsorbed(shapes, db, flag, done, e);
        Restart(shapes, Final(db, Step(db, flag, e).states), flag, done + [e], rest, s);
        assert done + feed == (done + [e]) + rest;
        OutcomeCons(db, flag, e, rest);
      }
    }
  }

  /** Databases left by successive runs of one feed, each killed after any statement or none. */
  ghost predicate KilledRuns(dbs: seq<Database>, flag: string, feed: seq<Event>) {
    && dbs != []
    && forall i :: 0 <= i < |dbs| - 1 ==> dbs[i + 1] == dbs[i] || dbs[i + 1] in Run(dbs[i], flag, feed).states
  }

  /**
   Any number of runs restarted from the first line, each killed anywhere, followed by one complete
   run, end exactly where a single uninterrupted run ends, whatever order the row events come in.
   */
  lemma {:induction false} CrashConvergence(shapes: Shapes, dbs: seq<Database>, flag: string, feed: seq<Event>)
    requires Replayable(shapes, feed)
    requires KilledRuns(dbs, flag, feed)
    ensures Outcome(dbs[|dbs| - 1], flag, feed) == Outcome(dbs[0], flag, feed)
    decreases |dbs|
  {
    hide Run, Outcome, Absorbed, Fits;
    if |dbs| > 1 {
      var init := dbs[..|dbs| - 1];
      CrashConvergence(shapes, init, flag, feed);
      assert [] + feed == feed;
      var i := |dbs| - 2;
      assert dbs[i + 1] == dbs[i] || dbs[i + 1] in Run(dbs[i], flag, feed).states;
      Restart(shapes, dbs[i], flag, [], feed, dbs[i + 1]);
    }
  }
}
