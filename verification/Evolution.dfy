/**
 Restarting over a changing schema. Column-level changes are streamed and skipped by the cursor when
 they come again; declarations and snapshot rows are not, and meet the shape the table has by then.
 Re-delivery is harmless exactly while they still describe it.
 */
module Evolution {
  import opened Feed
  import opened Destination
  import opened DuckSpec
  import opened Replay
  import CursorPath

  predicate IsColumnChange(c: Change) {
    c.AddColumn? || c.RenameColumn? || c.AlterColumnType?
  }

  /** The envelope's own cross-check: the change and the shape it carries agree. */
  predicate SelfConsistent(c: Change) {
    match c
    case AddColumn(columns, name) => name != "" && name in Names(columns)
    case RenameColumn(columns, from, to) => from != "" && to != "" && to in Names(columns) && from !in Names(columns)
    case AlterColumnType(columns, name, _, _) => name != "" && name in Names(columns)
    case _ => true
  }

  /** Any event, at a position a signed column holds as it is. */
  predicate Evolves(e: Event) {
    && SelfConsistent(e.change)
    && Storable(e)
  }

  ghost predicate AllEvolve(feed: seq<Event>) {
    forall e :: e in feed ==> Evolves(e)
  }

  /** The streamed events of a run so far are at or below their cursors. */
  ghost predicate Covers(db: Database, done: seq<Event>) {
    forall e :: e in done && !e.change.BypassesCursor() ==> Skips(db, e)
  }

  /** A declaration spells the table's shape, a snapshot row names a row as new, a dropped table is gone. */
  ghost predicate Describes(db: Database, e: Event) {
    if e.change.DropTable? then e.table !in db.tables else Settled(db, e)
  }

  /** The events of a run so far that no cursor skips still describe what the destination holds. */
  ghost predicate Stands(db: Database, done: seq<Event>) {
    forall e :: e in done && e.change.BypassesCursor() ==> Describes(db, e)
  }

  ghost predicate NoDrops(done: seq<Event>) {
    forall e :: e in done ==> !e.change.DropTable?
  }

  // ---------------------------------------------------------------------------------------------
  // A column-level change killed between its statements.

  lemma RetypeTwice(t: Table, name: string, typ: string)
    ensures var s := Retype(name, typ); Exec(Exec(t, s), s) == Exec(t, s)
  {
    var s := Retype(name, typ);
    var once, twice := Exec(t, s), Exec(Exec(t, s), s);
    assert twice.columns == once.columns;
    forall k | k in t.rows
      ensures twice.rows[k] == once.rows[k]
    {
      var cells := t.rows[k].cells;
      assert Carry(Carry(cells, s), s) == Carry(cells, s);
    }
    assert twice.rows == once.rows;
  }

  /** The change a statement made is found made: issuing it again is nothing, or changes nothing. */
  lemma PlanIsDone(t: Table, c: Change)
    requires IsColumnChange(c) && PlanFor(t, c).Issue?
    ensures var u := Exec(t, PlanFor(t, c).statement);
            PlanFor(u, c).Nothing? || (PlanFor(u, c).Issue? && Exec(u, PlanFor(u, c).statement) == u)
  {
    var s := PlanFor(t, c).statement;
    var u := Exec(t, s);
    match c {
      case AddColumn(_, name) =>
        assert u.columns[|t.columns|].name == name;
        assert Names(u.columns)[|t.columns|] == name;
      case RenameColumn(_, from, to) =>
        var i :| 0 <= i < |t.columns| && Names(t.columns)[i] == from;
        assert Names(u.columns)[i] == to;
      case AlterColumnType(_, name, _, _) =>
        RetypeTwice(t, name, s.typ);
        var i :| 0 <= i < |t.columns| && Names(t.columns)[i] == name;
        assert Names(u.columns)[i] == name;
    }
  }

  lemma {:induction false} TypeInIs(columns: seq<ColumnSpec>, name: string, i: nat)
    requires Distinct(Names(columns)) && i < |columns| && columns[i].name == name
    ensures TypeIn(columns, name) == Some(columns[i].typ)
    decreases |columns|
  {
    if i > 0 {
      assert Names(columns)[0] != Names(columns)[i];
      assert forall j :: 0 <= j < |columns| - 1 ==> Names(columns[1..])[j] == Names(columns)[j + 1];
      TypeInIs(columns[1..], name, i - 1);
    }
  }

  /** A table made from the shape a change carries already has the change. */
  lemma ShapeHasChange(flag: string, c: Change)
    requires IsColumnChange(c) && SelfConsistent(c) && Declarable(DuckColumns(c.columns), flag)
    requires c.AlterColumnType? ==> c.column != flag
    ensures var u := Table(DuckColumns(c.columns), flag, map[]);
            PlanFor(u, c).Nothing? || (PlanFor(u, c).Issue? && Exec(u, PlanFor(u, c).statement) == u)
  {
    var columns := DuckColumns(c.columns);
    assert Names(columns) == Names(c.columns) && Distinct(Names(columns));
    hide Declarable;
    match c {
      case AddColumn(_, name) =>
        var i :| 0 <= i < |columns| && Names(columns)[i] == name;
        TypeInIs(columns, name, i);
      case RenameColumn(_, _, _) =>
      case AlterColumnType(_, name, _, _) =>
        var i :| 0 <= i < |columns| && Names(columns)[i] == name;
        TypeInIs(columns, name, i);
        RetypeIsThere(columns, flag, i);
        hide Exec;
    }
  }

  lemma RetypeIsThere(columns: seq<ColumnSpec>, flag: string, i: nat)
    requires Distinct(Names(columns)) && i < |columns|
    ensures var u := Table(columns, flag, map[]); Exec(u, Retype(columns[i].name, columns[i].typ)) == u
  {
    var u, s := Table(columns, flag, map[]), Retype(columns[i].name, columns[i].typ);
    assert forall j :: 0 <= j < |columns| && j != i ==> Names(columns)[j] != Names(columns)[i];
    assert Exec(u, s).columns == columns;
    assert Exec(u, s).rows == u.rows;
  }

  /** A retype of the key column, of a table that is not there: it makes the table, and could not retype it. */
  predicate MakesItsKey(db: Database, flag: string, e: Event) {
    e.change.AlterColumnType? && e.table !in db.tables && e.change.column == flag
  }

  /** Applying a column-level change again to what its own statement left. */
  lemma ChangeAgain(db: Database, flag: string, e: Event, s: Database)
    requires IsColumnChange(e.change) && Evolves(e) && s in ApplySchema(db, flag, e).states
    ensures ApplySchema(db, flag, e) == Effect([s], true) && s.checkpoint == db.checkpoint
    ensures !MakesItsKey(db, flag, e) ==> ApplySchema(s, flag, e).ok && Final(s, ApplySchema(s, flag, e).states) == s
    ensures MakesItsKey(db, flag, e) ==> ApplySchema(s, flag, e) == Effect([], false)
  {
    hide Declarable, Exec, PlanFor;
    if e.table in db.tables {
      PlanIsDone(db.tables[e.table], e.change);
    } else {
      var columns := DuckColumns(e.change.columns);
      InferenceIsOneStatement(db, flag, e.table, columns);
      assert s == Create(db, e.table, columns, flag);
      if MakesItsKey(db, flag, e) {
        KeyIsNotRetyped(s.tables[e.table], e.change);
      } else {
        ShapeHasChange(flag, e.change);
      }
    }
  }

  lemma KeyIsNotRetyped(t: Table, c: Change)
    requires c.AlterColumnType? && c.column == t.key
    ensures PlanFor(t, c).Refuse?
  {
  }

  /** Killed once its statements are done but its position is not recorded. */
  ghost predicate Stranded(db: Database, flag: string, e: Event, s: Database) {
    MakesItsKey(db, flag, e) && s in ApplySchema(db, flag, e).states
  }

  /** ... it is refused from then on, however often it is tried again. */
  lemma StrandedIsRefused(db: Database, flag: string, e: Event, s: Database, rest: seq<Event>)
    requires Evolves(e) && !Skips(db, e) && Stranded(db, flag, e, s)
    ensures Step(db, flag, e).ok && Step(s, flag, e) == Effect([], false)
    ensures Outcome(s, flag, [e] + rest) == (s, false)
  {
    hide ApplySchema, Evolves;
    ChangeAgain(db, flag, e, s);
    OutcomeCons(s, flag, e, rest);
  }

  lemma ChangeResumes(db: Database, flag: string, e: Event, s: Database)
    requires IsColumnChange(e.change) && Evolves(e) && s in Step(db, flag, e).states && !Stranded(db, flag, e, s)
    ensures Final(s, Step(s, flag, e).states) == Final(db, Step(db, flag, e).states)
    ensures Step(s, flag, e).ok == Step(db, flag, e).ok
  {
    assert Storable(e);
    hide ApplySchema, Evolves;
    var applied := ApplySchema(db, flag, e);
    if s in applied.states {
      ChangeAgain(db, flag, e, s);
    } else {
      if applied.states != [] {
        ChangeAgain(db, flag, e, applied.states[0]);
      }
      SaveSkips(Final(db, applied.states), e);
    }
  }

  /** Running a killed step again reaches the same end, for every event that is not stranded, and only then. */
  lemma EveryStepResumesIff(db: Database, flag: string, e: Event, s: Database)
    requires Evolves(e) && s in Step(db, flag, e).states
    ensures (Final(s, Step(s, flag, e).states) == Final(db, Step(db, flag, e).states) &&
             Step(s, flag, e).ok == Step(db, flag, e).ok) <==> !Stranded(db, flag, e, s)
  {
    if Stranded(db, flag, e, s) {
      StrandedIsRefused(db, flag, e, s, []);
      return;
    }
    if e.change.DropTable? {
      assert s.tables == db.tables - {e.table} == s.tables - {e.table};
      return;
    }
    hide Step;
    if IsColumnChange(e.change) {
      ChangeResumes(db, flag, e, s);
    } else {
      StepResumes(db, flag, e, s);
    }
  }

  // ---------------------------------------------------------------------------------------------
  // Cursors only move forward.

  lemma ChangeKeepsCursor(db: Database, flag: string, e: Event, s: Database)
    requires IsColumnChange(e.change) && Evolves(e) && s in Step(db, flag, e).states
    ensures forall n :: !Above(Cursor(db, n), Cursor(s, n))
  {
    hide ApplySchema, Evolves;
    var applied := ApplySchema(db, flag, e);
    if applied.states != [] {
      ChangeAgain(db, flag, e, applied.states[0]);
    }
    if s !in applied.states {
      SaveIsLater(Final(db, applied.states), e);
    }
  }

  lemma StepKeepsCursor(db: Database, flag: string, e: Event, s: Database, a: Event)
    requires Evolves(e) && s in Step(db, flag, e).states
    requires !a.change.BypassesCursor() && Skips(db, a)
    ensures Skips(s, a)
  {
    if e.change.DropTable? {
      assert s.checkpoint == db.checkpoint;
      return;
    }
    hide Step, Evolves, Cursor;
    if IsColumnChange(e.change) {
      ChangeKeepsCursor(db, flag, e, s);
    } else {
      EventKind(e);
      StepIsLater(db, flag, e, s);
    }
    assert !Above(Cursor(db, a.table), Cursor(s, a.table));
  }

  lemma EventKind(e: Event)
    requires !e.change.DropTable? && !IsColumnChange(e.change)
    ensures e.change.IsRow() || e.change.CreateTable?
  {
  }

  lemma StepCovers(db: Database, flag: string, e: Event, s: Database, done: seq<Event>)
    requires Evolves(e) && Covers(db, done) && s in Step(db, flag, e).states
    ensures Covers(s, done)
  {
    hide Step, Skips, Evolves;
    forall a | a in done && !a.change.BypassesCursor()
      ensures Skips(s, a)
    {
      StepKeepsCursor(db, flag, e, s, a);
    }
  }

  lemma LandedIsSkipped(db: Database, flag: string, e: Event)
    requires Evolves(e) && !e.change.BypassesCursor() && Step(db, flag, e).ok
    ensures Skips(Final(db, Step(db, flag, e).states), e)
  {
    assert Storable(e);
    hide Apply, Evolves;
    if !Skips(db, e) {
      var at := Final(db, Apply(db, flag, e).states);
      CursorPath.ApplyKeepsCheckpoint(db, flag, e);
      SaveSkips(at, e);
    }
  }

  lemma NextCovers(db: Database, flag: string, e: Event, done: seq<Event>)
    requires Evolves(e) && Covers(db, done) && Step(db, flag, e).ok
    ensures Covers(Final(db, Step(db, flag, e).states), done + [e])
  {
    hide Step, Skips, Evolves;
    var step := Step(db, flag, e);
    if step.states != [] {
      StepCovers(db, flag, e, Final(db, step.states), done);
    }
    if !e.change.BypassesCursor() {
      LandedIsSkipped(db, flag, e);
    }
  }

  // ---------------------------------------------------------------------------------------------
  // Re-delivery to a destination it still describes.

  lemma TakenIsStill(db: Database, flag: string, e: Event)
    requires Evolves(e) && Covers(db, [e]) && Stands(db, [e])
    ensures Still(db, Step(db, flag, e)) && forall s :: s in Step(db, flag, e).states ==> s == db
  {
    assert e in [e];
    if e.change.Read? {
      ApplyToHeldRow(db, flag, e);
    } else if e.change.CreateTable? {
      var columns := DuckColumns(e.change.columns);
      EnsureOnExisting(db, flag, e.table, columns);
      assert columns[|columns|..] == [];
    } else if e.change.DropTable? {
      assert db.tables - {e.table} == db.tables;
    }
  }

  /** A run over events taken in stays where it is, for as many of them as it is given. */
  lemma {:induction false} StandingIsStill(db: Database, flag: string, done: seq<Event>, rest: seq<Event>)
    requires AllEvolve(done) && Covers(db, done) && Stands(db, done)
    ensures Outcome(db, flag, done + rest) == Outcome(db, flag, rest)
    decreases |done|
  {
    hide Step, Run, Outcome, Skips, Settled, Evolves;
    if done == [] {
      assert done + rest == rest;
    } else {
      TakenIsStill(db, flag, done[0]);
      StandingIsStill(db, flag, done[1..], rest);
      OutcomeCons(db, flag, done[0], done[1..] + rest);
      assert done + rest == [done[0]] + (done[1..] + rest);
    }
  }

  // ---------------------------------------------------------------------------------------------
  // Re-delivery to a destination it no longer describes is refused, or leaves a mark.

  /** Nothing lost, no stamp lowered, no column dropped. */
  ghost predicate Grown(db: Database, next: Database) {
    && Later(db, next)
    && forall n :: n in db.tables ==> |db.tables[n].columns| <= |next.tables[n].columns|
  }

  lemma GrownTransitive(a: Database, b: Database, c: Database)
    requires Grown(a, b) && Grown(b, c)
    ensures Grown(a, c)
  {
    LaterTransitive(a, b, c);
  }

  lemma EnsureGrows(db: Database, flag: string, table: string, columns: seq<ColumnSpec>)
    ensures Grown(db, Final(db, Ensure(db, flag, table, columns).states))
  {
    hide Declarable, Growth, Exec;
    var states := Ensure(db, flag, table, columns).states;
    var last := Final(db, states);
    LaterReflexive(db);
    if states != [] {
      EnsureIsLater(db, flag, table, columns, last);
      forall n | n in db.tables && n != table
        ensures |db.tables[n].columns| <= |last.tables[n].columns|
      {
        EnsureKeepsShape(db, flag, table, columns, last, n);
      }
      if Ensure(db, flag, table, columns).ok {
        EnsureSettles(db, flag, table, columns);
      }
    }
  }

  lemma BypassGrows(db: Database, flag: string, e: Event)
    requires e.change.Read? || e.change.CreateTable?
    ensures Grown(db, Final(db, Step(db, flag, e).states))
  {
    hide Ensure, Later;
    if e.change.CreateTable? {
      EnsureGrows(db, flag, e.table, DuckColumns(e.change.columns));
    } else {
      var columns := InferredColumns(e.change.Image());
      LaterReflexive(db);
      if e.table !in db.tables {
        EnsureGrows(db, flag, e.table, columns);
      }
      var at := if e.table in db.tables then db else Final(db, Ensure(db, flag, e.table, columns).states);
      if e.table in at.tables && NamesRow(at.tables[e.table], e.change.Image()) {
        ExecIsLater(at, e.table, PutOf(at.tables[e.table], e));
        GrownTransitive(db, at, ExecIn(at, e.table, PutOf(at.tables[e.table], e)));
      }
    }
  }

  /** A declaration or snapshot row that no longer fits, and is not refused, changes what it meets. */
  lemma MisfitMoves(db: Database, flag: string, e: Event)
    requires (e.change.Read? || e.change.CreateTable?) && !Settled(db, e) && Step(db, flag, e).ok
    ensures !Grown(Final(db, Step(db, flag, e).states), db)
  {
    hide Declarable, Growth;
    var x := Final(db, Step(db, flag, e).states);
    if e.change.CreateTable? {
      EnsureSettles(db, flag, e.table, DuckColumns(e.change.columns));
    } else {
      ApplyRowSettles(db, flag, e);
    }
    assert e.table in x.tables;
    if e.table in db.tables && e.change.Read? {
      var k := e.change.Image()[db.tables[e.table].key];
      assert k in x.tables[e.table].rows;
      assert !LaterTable(x.tables[e.table], db.tables[e.table]);
    }
  }

  lemma {:induction false} RedeliveryGrows(db: Database, flag: string, done: seq<Event>)
    requires AllEvolve(done) && NoDrops(done) && Covers(db, done)
    ensures Grown(db, Outcome(db, flag, done).0)
    decreases |done|
  {
    hide Step, Run, Outcome, Skips, Evolves, Grown;
    if done == [] {
      CursorPath.OutcomeNil(db, flag);
      GrownReflexive(db);
    } else {
      var e, rest := done[0], done[1..];
      assert done == [e] + rest;
      OutcomeCons(db, flag, e, rest);
      var x := Final(db, Step(db, flag, e).states);
      StepGrows(db, flag, e);
      CoversAfter(db, flag, e, rest);
      RedeliveryGrows(x, flag, rest);
      GrownTransitive(db, x, Outcome(x, flag, rest).0);
    }
  }

  lemma GrownReflexive(db: Database)
    ensures Grown(db, db)
  {
    LaterReflexive(db);
  }

  lemma StepGrows(db: Database, flag: string, e: Event)
    requires !e.change.DropTable? && Covers(db, [e])
    ensures Grown(db, Final(db, Step(db, flag, e).states))
  {
    assert e in [e];
    if e.change.BypassesCursor() {
      BypassGrows(db, flag, e);
    } else {
      GrownReflexive(db);
    }
  }

  lemma CoversAfter(db: Database, flag: string, e: Event, done: seq<Event>)
    requires Evolves(e) && Covers(db, done)
    ensures Covers(Final(db, Step(db, flag, e).states), done)
  {
    hide Step;
    var states := Step(db, flag, e).states;
    if states != [] {
      StepCovers(db, flag, e, Final(db, states), done);
    }
  }

  /**
   Re-delivering what a destination has taken in, drops aside, is a no-op exactly when each declaration
   in it still spells the table's shape and each snapshot row still names a row at least as new.
   */
  lemma {:induction false} RedeliveryIsNoOpIff(db: Database, flag: string, done: seq<Event>)
    requires AllEvolve(done) && NoDrops(done) && Covers(db, done)
    ensures Outcome(db, flag, done) == (db, true) <==> Stands(db, done)
    decreases |done|
  {
    hide Step, Run, Outcome, Skips, Settled, Evolves, Grown;
    if done == [] {
      CursorPath.OutcomeNil(db, flag);
    } else {
      var e, rest := done[0], done[1..];
      assert done == [e] + rest;
      OutcomeCons(db, flag, e, rest);
      if Stands(db, [e]) {
        TakenIsStill(db, flag, e);
        RedeliveryIsNoOpIff(db, flag, rest);
      } else if Step(db, flag, e).ok {
        var x := Final(db, Step(db, flag, e).states);
        MisfitKind(e);
        MisfitMoves(db, flag, e);
        CoversAfter(db, flag, e, rest);
        RedeliveryGrows(x, flag, rest);
      }
    }
  }

  lemma MisfitKind(e: Event)
    requires !e.change.DropTable? && e.change.BypassesCursor()
    ensures e.change.Read? || e.change.CreateTable?
  {
  }

  // ---------------------------------------------------------------------------------------------
  // Any number of kills.

  /** A run of the feed that was killed on its event n, after any of that event's statements or none. */
  ghost predicate CutAt(db: Database, flag: string, feed: seq<Event>, n: nat, s: Database) {
    && n <= |feed|
    && Outcome(db, flag, feed[..n]).1
    && var at := Outcome(db, flag, feed[..n]).0;
       s == at || (n < |feed| && s in Step(at, flag, feed[n]).states)
  }

  /** ... and the event was a retype that this stranded. */
  ghost predicate StrandedAt(db: Database, flag: string, feed: seq<Event>, n: nat, s: Database) {
    && n < |feed| && s != Outcome(db, flag, feed[..n]).0
    && Stranded(Outcome(db, flag, feed[..n]).0, flag, feed[n], s)
  }

  /** Every database inside a run is such a cut. */
  lemma {:induction false} EveryStateIsACut(db: Database, flag: string, feed: seq<Event>, s: Database) returns (n: nat)
    requires s == db || s in Run(db, flag, feed).states
    ensures CutAt(db, flag, feed, n, s)
    decreases |feed|
  {
    hide Step, Outcome;
    CursorPath.OutcomeNil(db, flag);
    assert feed[..0] == [];
    n := 0;
    if s != db && s !in Step(db, flag, feed[0]).states {
      var e, rest := feed[0], feed[1..];
      assert feed == [e] + rest;
      LaterStates(db, flag, e, rest, s);
      var m := EveryStateIsACut(Final(db, Step(db, flag, e).states), flag, rest, s);
      n := m + 1;
      assert feed[..n] == [e] + rest[..m];
      OutcomeCons(db, flag, e, rest[..m]);
    }
  }

  /** A run from a database that has taken in m events, up to event n. */
  lemma {:induction false} RunsOn(db: Database, flag: string, feed: seq<Event>, m: nat, n: nat)
    requires AllEvolve(feed) && m <= n <= |feed| && Covers(db, feed[..m])
    requires Outcome(db, flag, feed[m..n]).1
    ensures var at := Outcome(db, flag, feed[m..n]).0;
            Covers(at, feed[..n]) && Outcome(at, flag, feed[n..]) == Outcome(db, flag, feed[m..])
    decreases n
  {
    hide Step, Run, Outcome, Skips, Evolves, Covers;
    if m == n {
      assert feed[m..n] == [];
      CursorPath.OutcomeNil(db, flag);
    } else {
      var e := feed[n - 1];
      assert feed[m..n] == feed[m..n - 1] + [e];
      CursorPath.OutcomeSnoc(db, flag, feed[m..n - 1], e);
      RunsOn(db, flag, feed, m, n - 1);
      var at := Outcome(db, flag, feed[m..n - 1]).0;
      NextCovers(at, flag, e, feed[..n - 1]);
      assert feed[..n] == feed[..n - 1] + [e];
      assert feed[n - 1..] == [e] + feed[n..];
      OutcomeCons(at, flag, e, feed[n..]);
    }
  }

  /** Having taken in m events of the feed, and with the outcome of the whole still ahead. */
  ghost predicate OnCourse(s: Database, flag: string, feed: seq<Event>, m: nat, end: (Database, bool)) {
    m <= |feed| && Covers(s, feed[..m]) && Outcome(s, flag, feed[m..]) == end
  }

  lemma CutInStep(at: Database, flag: string, feed: seq<Event>, n: nat, s: Database, end: (Database, bool))
    requires AllEvolve(feed) && n < |feed| && OnCourse(at, flag, feed, n, end)
    requires s in Step(at, flag, feed[n]).states && !Stranded(at, flag, feed[n], s)
    ensures OnCourse(s, flag, feed, n, end)
  {
    hide Step, Run, Outcome, Skips, Evolves, Covers;
    var e := feed[n];
    StepCovers(at, flag, e, s, feed[..n]);
    EveryStepResumesIff(at, flag, e, s);
    assert feed[n..] == [e] + feed[n + 1..];
    OutcomeCons(at, flag, e, feed[n + 1..]);
    OutcomeCons(s, flag, e, feed[n + 1..]);
  }

  function Max(m: nat, n: nat): nat {
    if m < n then n else m
  }

  /** A restart killed again is still on course. */
  lemma CutStaysOnCourse(
    db: Database, flag: string, feed: seq<Event>, m: nat, end: (Database, bool), n: nat, s: Database)
    requires AllEvolve(feed) && OnCourse(db, flag, feed, m, end) && Stands(db, feed[..m])
    requires CutAt(db, flag, feed, n, s) && !StrandedAt(db, flag, feed, n, s)
    ensures OnCourse(s, flag, feed, Max(m, n), end)
  {
    hide Step, Run, Outcome, Skips, Settled, Evolves;
    if n < m {
      assert feed[..n] + [] == feed[..n];
      StandingIsStill(db, flag, feed[..n], []);
      CursorPath.OutcomeNil(db, flag);
      assert feed[n] in feed[..m];
      TakenIsStill(db, flag, feed[n]);
      assert s == db;
    } else {
      assert feed[..n] == feed[..m] + feed[m..n];
      StandingIsStill(db, flag, feed[..m], feed[m..n]);
      RunsOn(db, flag, feed, m, n);
      var at := Outcome(db, flag, feed[..n]).0;
      assert OnCourse(at, flag, feed, n, end);
      if s != at {
        CutInStep(at, flag, feed, n, s, end);
      }
    }
  }

  /** How far into the feed any of the runs came. */
  function Furthest(ns: seq<nat>): nat {
    if ns == [] then 0 else Max(Furthest(ns[..|ns| - 1]), ns[|ns| - 1])
  }

  /** Databases left by successive runs of one feed, each killed on the given event. */
  ghost predicate CutRuns(dbs: seq<Database>, ns: seq<nat>, flag: string, feed: seq<Event>) {
    && |dbs| == |ns| + 1
    && forall i :: 0 <= i < |ns| ==> CutAt(dbs[i], flag, feed, ns[i], dbs[i + 1])
  }

  ghost predicate NoneStranded(dbs: seq<Database>, ns: seq<nat>, flag: string, feed: seq<Event>)
    requires |dbs| == |ns| + 1
  {
    forall i :: 0 <= i < |ns| ==> !StrandedAt(dbs[i], flag, feed, ns[i], dbs[i + 1])
  }

  /** At every restart, what has been taken in so far still describes the destination. */
  ghost predicate StandsThroughout(dbs: seq<Database>, ns: seq<nat>, feed: seq<Event>)
    requires |dbs| == |ns| + 1
  {
    forall i :: 0 <= i < |ns| ==> Furthest(ns[..i]) <= |feed| && Stands(dbs[i], feed[..Furthest(ns[..i])])
  }

  lemma {:induction false} RestartsStayOnCourse(dbs: seq<Database>, ns: seq<nat>, flag: string, feed: seq<Event>)
    requires AllEvolve(feed) && CutRuns(dbs, ns, flag, feed) && StandsThroughout(dbs, ns, feed)
    requires NoneStranded(dbs, ns, flag, feed)
    ensures OnCourse(dbs[|ns|], flag, feed, Furthest(ns), Outcome(dbs[0], flag, feed))
    decreases |ns|
  {
    hide Outcome, Stands, Covers, CutAt, OnCourse, StrandedAt, Evolves;
    if ns == [] {
      AtTheStart(dbs[0], flag, feed);
    } else {
      var k := |ns| - 1;
      var before, cuts := dbs[..|ns|], ns[..k];
      OneRunFewer(dbs, ns, flag, feed);
      hide StandsThroughout, CutRuns, NoneStranded;
      RestartsStayOnCourse(before, cuts, flag, feed);
      CutStaysOnCourse(dbs[k], flag, feed, Furthest(cuts), Outcome(dbs[0], flag, feed), ns[k], dbs[k + 1]);
    }
  }

  lemma OneRunFewer(dbs: seq<Database>, ns: seq<nat>, flag: string, feed: seq<Event>)
    requires ns != [] && CutRuns(dbs, ns, flag, feed) && StandsThroughout(dbs, ns, feed)
    requires NoneStranded(dbs, ns, flag, feed)
    ensures var k := |ns| - 1; var before, cuts := dbs[..|ns|], ns[..k];
            && CutRuns(before, cuts, flag, feed) && StandsThroughout(before, cuts, feed)
            && NoneStranded(before, cuts, flag, feed)
            && CutAt(dbs[k], flag, feed, ns[k], dbs[k + 1]) && !StrandedAt(dbs[k], flag, feed, ns[k], dbs[k + 1])
            && Furthest(cuts) <= |feed| && Stands(dbs[k], feed[..Furthest(cuts)])
  {
    hide Stands, CutAt, StrandedAt, Furthest;
    var k := |ns| - 1;
    var before, cuts := dbs[..|ns|], ns[..k];
    forall i | 0 <= i < k
      ensures CutAt(before[i], flag, feed, cuts[i], before[i + 1])
      ensures !StrandedAt(before[i], flag, feed, cuts[i], before[i + 1])
      ensures Furthest(cuts[..i]) <= |feed| && Stands(before[i], feed[..Furthest(cuts[..i])])
    {
      assert cuts[..i] == ns[..i];
    }
  }

  lemma AtTheStart(db: Database, flag: string, feed: seq<Event>)
    ensures OnCourse(db, flag, feed, 0, Outcome(db, flag, feed))
  {
    assert feed[0..] == feed;
  }

  lemma OnCourseConverges(s: Database, flag: string, feed: seq<Event>, m: nat, end: (Database, bool))
    requires AllEvolve(feed) && OnCourse(s, flag, feed, m, end)
    ensures m <= |feed|
    ensures NoDrops(feed) ==> (Outcome(s, flag, feed[..m]) == (s, true) <==> Stands(s, feed[..m]))
    ensures Stands(s, feed[..m]) ==> Outcome(s, flag, feed) == end
  {
    hide Outcome, Stands, Covers, Evolves;
    assert forall e :: e in feed[..m] ==> e in feed;
    if NoDrops(feed) {
      RedeliveryIsNoOpIff(s, flag, feed[..m]);
    }
    if Stands(s, feed[..m]) {
      StandingIsStill(s, flag, feed[..m], feed[m..]);
      assert feed[..m] + feed[m..] == feed;
    }
  }

  /**
   Any number of runs of a feed with any schema changes, each killed anywhere and restarted from the
   first line. While what was taken in still describes the destination, one complete run ends where a
   single uninterrupted run would have; without drops, going over it is a no-op exactly then.
   */
  lemma EvolvingConvergence(dbs: seq<Database>, ns: seq<nat>, flag: string, feed: seq<Event>)
    requires AllEvolve(feed) && CutRuns(dbs, ns, flag, feed) && StandsThroughout(dbs, ns, feed)
    requires NoneStranded(dbs, ns, flag, feed)
    ensures Furthest(ns) <= |feed|
    ensures var last, done := dbs[|ns|], feed[..Furthest(ns)];
            && (NoDrops(feed) ==> (Outcome(last, flag, done) == (last, true) <==> Stands(last, done)))
            && (Stands(last, done) ==> Outcome(last, flag, feed) == Outcome(dbs[0], flag, feed))
  {
    assert |dbs| == |ns| + 1;
    hide *;
    RestartsStayOnCourse(dbs, ns, flag, feed);
    OnCourseConverges(dbs[|ns|], flag, feed, Furthest(ns), Outcome(dbs[0], flag, feed));
  }

  // ---------------------------------------------------------------------------------------------
  // Runs of two short feeds.

  const ONE_COLUMN := [ColumnSpec("id", "BIGINT")]
  const TWO_COLUMNS := [ColumnSpec("id", "BIGINT"), ColumnSpec("note", "TEXT")]

  /** A table declared, then grown. */
  const GROWN := [
    Event("t", CreateTable(ONE_COLUMN), 1, 1, 2, None),
    Event("t", AddColumn(TWO_COLUMNS, "note"), 5, 5, 6, None)]

  /** A declaration shorter than the table is refused, and with it the rest of the feed. */
  lemma ShorterDeclarationIsRefused(db: Database, flag: string, e: Event, rest: seq<Event>)
    requires e.change.CreateTable? && e.table in db.tables
    requires |e.change.columns| < |db.tables[e.table].columns|
    ensures Outcome(db, flag, [e] + rest) == (db, false)
  {
    hide Declarable;
    OutcomeCons(db, flag, e, rest);
  }

  const MADE := Database(map["t" := Table(ONE_COLUMN, "id", map[])], map[])

  lemma FirstStep()
    ensures Step(Database(map[], map[]), "id", GROWN[0]) == Effect([MADE], true)
  {
    assert DuckColumns(ONE_COLUMN) == ONE_COLUMN;
    assert Names(ONE_COLUMN) == ["id"] && ONE_COLUMN[|ONE_COLUMN|..] == [];
    assert Declarable(ONE_COLUMN, "id");
  }

  lemma SecondStep()
    ensures var step := Step(MADE, "id", GROWN[1]);
            step.ok && "t" in Final(MADE, step.states).tables && |Final(MADE, step.states).tables["t"].columns| == 2
  {
    var two := DuckColumns(TWO_COLUMNS);
    assert TypeIn(two, "note") == TypeIn(two[1..], "note") == Some("VARCHAR");
    assert PlanFor(MADE.tables["t"], GROWN[1].change) == Issue(Add(ColumnSpec("note", "VARCHAR")));
  }

  /** Running that feed a second time over its own result is refused at its first line. */
  lemma ReplayAfterGrowthIsRefused()
    ensures var end := Outcome(Database(map[], map[]), "id", GROWN);
            end.1 && Outcome(end.0, "id", GROWN) == (end.0, false)
  {
    hide Step, Run, Outcome;
    var empty, end := Database(map[], map[]), Final(MADE, Step(MADE, "id", GROWN[1]).states);
    assert GROWN == [GROWN[0]] + [GROWN[1]] && [GROWN[1]] == [GROWN[1]] + [];
    FirstStep();
    SecondStep();
    OutcomeCons(empty, "id", GROWN[0], [GROWN[1]]);
    OutcomeCons(MADE, "id", GROWN[1], []);
    CursorPath.OutcomeNil(end, "id");
    ShorterDeclarationIsRefused(end, "id", GROWN[0], [GROWN[1]]);
  }

  /** A retype of the key column, the first this destination hears of the table. */
  const RETYPED := Event("t", AlterColumnType(ONE_COLUMN, "id", "INTEGER", "BIGINT"), 5, 5, 6, None)

  lemma RetypeMakesTable()
    ensures ApplySchema(Database(map[], map[]), "id", RETYPED) == Effect([MADE], true)
  {
    assert DuckColumns(ONE_COLUMN) == ONE_COLUMN;
    assert Names(ONE_COLUMN) == ["id"] && ONE_COLUMN[|ONE_COLUMN|..] == [];
    assert Declarable(ONE_COLUMN, "id");
  }

  /** It lands in one run, and killed between its two statements it never lands again. */
  lemma RetypeStrandsItself(rest: seq<Event>)
    ensures var empty := Database(map[], map[]);
            && Step(empty, "id", RETYPED).ok && MADE in Step(empty, "id", RETYPED).states
            && Outcome(MADE, "id", [RETYPED] + rest) == (MADE, false)
  {
    hide Outcome, ApplySchema;
    RetypeMakesTable();
    assert MADE == [MADE][0] && Names(ONE_COLUMN)[0] == "id";
    StrandedIsRefused(Database(map[], map[]), "id", RETYPED, MADE, rest);
  }
}
