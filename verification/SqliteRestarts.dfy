/**
 Conditions on the feed alone under which a restarted SQLite process has what the killed one had: the
 rows of a dropped table, and the columns cached for the tables still to come.
 */
module SqliteRestarts {
  import opened Feed
  import opened Destination
  import opened SqliteSpec
  import opened SqliteReplay
  import D = DuckSpec
  import Drops
  import E = Evolution
  import R = Replay
  import Strings

  // ---------------------------------------------------------------------------------------------
  // The rows of a dropped table.

  lemma {:induction false} GrowthKeepsNoRows(db: D.Database, table: string, missing: seq<ColumnSpec>, t: string)
    requires table in db.tables && Drops.NoRows(db, t)
    ensures Drops.NoRows(D.Final(db, Growth(db, table, missing)), t)
    decreases |missing|
  {
    if missing != [] {
      var next := Growth(db, table, missing)[0];
      assert Drops.NoRows(next, t);
      GrowthKeepsNoRows(next, table, missing[1..], t);
    }
  }

  lemma EnsureKeepsNoRows(p: Process, flag: string, table: string, cols: seq<ColumnSpec>, declared: bool, t: string)
    requires Drops.NoRows(p.db, t)
    ensures Drops.NoRows(D.Final(p.db, Ensure(p, flag, table, cols, declared).states), t)
  {
    hide Growth, Behind, Agree, Spelled, Creatable;
    if table in p.db.tables {
      var want, got := Spelled(cols), p.db.tables[table].columns;
      if Behind(got, want, declared) {
        BehindIsShorter(got, want, declared);
        GrowthKeepsNoRows(p.db, table, want[|got|..], t);
      }
    }
  }

  lemma StepKeepsNoRows(p: Process, flag: string, e: Event, t: string)
    requires Drops.NoRows(p.db, t) && E.Covers(p.db, [e]) && !(e.change.Read? && e.table == t)
    ensures Drops.NoRows(End(p, Step(p, flag, e)).db, t)
  {
    hide Ensure, Exec, D.Skips, Inferred, Binds, PutOf;
    assert e in [e];
    if e.change.CreateTable? {
      EnsureKeepsNoRows(p, flag, e.table, e.change.columns, true, t);
    } else if e.change.Read? {
      EnsureKeepsNoRows(p, flag, e.table, Inferred(e.change.Image()), false, t);
    }
  }

  lemma StepKeepsSomeRow(p: Process, flag: string, e: Event, t: string)
    requires !Drops.NoRows(p.db, t) && E.Covers(p.db, [e]) && !Drops.Drops(e, t)
    ensures !Drops.NoRows(End(p, Step(p, flag, e)).db, t)
  {
    hide Ensure, ApplyRow, Exec, R.Later, D.Skips;
    assert e in [e];
    var k :| k in p.db.tables[t].rows;
    var next := End(p, Step(p, flag, e)).db;
    if e.change.Read? || e.change.CreateTable? {
      BypassGrows(p, flag, e);
      Drops.LaterKeepsRow(p.db, next, t, k);
    } else if e.change.DropTable? {
      assert next.tables[t] == p.db.tables[t];
    }
  }

  lemma ReadLeavesRow(p: Process, flag: string, e: Event)
    requires e.change.Read? && Step(p, flag, e).ok
    ensures !Drops.NoRows(End(p, Step(p, flag, e)).db, e.table)
  {
    hide Ensure, PutOf, Binds, ApplyRow;
    RowSplits(p, flag, e);
    var settled := Settled(p, flag, e);
    var at := D.Final(p.db, settled.states);
    PutHolds(at, settled.columns[e.table], e);
  }

  /** Without a drop, a table has a row in the end exactly when it had one or a snapshot row came. */
  lemma {:induction false} RowsIff(p: Process, flag: string, done: seq<Event>, t: string)
    requires E.Covers(p.db, done) && !Drops.Dropped(done, t) && Outcome(p, flag, done).1
    ensures Drops.NoRows(Outcome(p, flag, done).0.db, t) <==> Drops.NoRows(p.db, t) && !Drops.Snapshots(done, t)
    decreases |done|
  {
    hide Step, Run, Outcome, D.Skips, Drops.NoRows;
    if done == [] {
      OutcomeNil(p, flag);
    } else {
      var e, rest := done[0], done[1..];
      assert done == [e] + rest;
      assert forall x :: x in done <==> x == e || x in rest;
      OutcomeCons(p, flag, e, rest);
      CoversAfter(p, flag, e, rest);
      var next := End(p, Step(p, flag, e));
      if e.change.Read? && e.table == t {
        ReadLeavesRow(p, flag, e);
      } else if Drops.NoRows(p.db, t) {
        StepKeepsNoRows(p, flag, e, t);
      } else {
        StepKeepsSomeRow(p, flag, e, t);
      }
      RowsIff(next, flag, rest, t);
    }
  }

  lemma DropLeavesNothing(p: Process, flag: string, e: Event)
    requires e.change.DropTable?
    ensures Drops.NoRows(End(p, Step(p, flag, e)).db, e.table)
  {
  }

  /** Going over a drop again leaves its table without a row exactly when no snapshot row follows the last drop. */
  lemma {:induction false} RowsAreLostIff(p: Process, flag: string, done: seq<Event>, t: string)
    requires E.Covers(p.db, done) && Drops.Dropped(done, t) && Outcome(p, flag, done).1
    ensures Drops.NoRows(Outcome(p, flag, done).0.db, t) <==> !Drops.Snapshots(Drops.SinceDrop(done, t), t)
    decreases |done|
  {
    hide Step, Run, Outcome, D.Skips, Drops.NoRows;
    var e, rest := done[0], done[1..];
    assert done == [e] + rest;
    OutcomeCons(p, flag, e, rest);
    CoversAfter(p, flag, e, rest);
    var next := End(p, Step(p, flag, e));
    if Drops.Dropped(rest, t) {
      RowsAreLostIff(next, flag, rest, t);
    } else {
      DropLeavesNothing(p, flag, e);
      RowsIff(next, flag, rest, t);
    }
  }

  // ---------------------------------------------------------------------------------------------
  // The columns cached for the rest of a feed.

  /**
   Going over these events tells a restarted process the columns the killed one had for a table: no
   column change came after the table's last declaration, and no streamed row before its first.
   */
  ghost predicate Told(done: seq<Event>, t: string) {
    done == [] || (
      var init, e := done[..|done| - 1], done[|done| - 1];
      if e.table != t then Told(init, t)
      else match e.change
        case CreateTable(_) => true
        case DropTable => true
        case Read(_) => Told(init, t)
        case AddColumn(_, _) => false
        case RenameColumn(_, _, _) => false
        case AlterColumnType(_, _, _, _) => false
        case _ => Told(init, t) && t in Recalled(map[], init))
  }

  /** Two caches with the same columns for a table. */
  predicate Same(a: Cache, b: Cache, t: string) {
    (t in a <==> t in b) && (t in a ==> a[t] == b[t])
  }

  lemma {:induction false} RecalledSnoc(columns: Cache, done: seq<Event>, e: Event)
    ensures Recalled(columns, done + [e]) == Recall(Recalled(columns, done), e)
    decreases |done|
  {
    hide Recall;
    if done == [] {
      assert done + [e] == [e];
      assert Recalled(Recall(columns, e), []) == Recall(columns, e);
    } else {
      assert (done + [e])[0] == done[0] && (done + [e])[1..] == done[1..] + [e];
      RecalledSnoc(Recall(columns, done[0]), done[1..], e);
    }
  }

  lemma EnsuredCache(p: Process, flag: string, table: string, cols: seq<ColumnSpec>, declared: bool)
    requires Ensure(p, flag, table, cols, declared).ok
    ensures Ensure(p, flag, table, cols, declared).columns == p.columns[table := Names(cols)]
  {
    hide CatchUp, Agree, Creatable, Made, Spelled;
  }

  lemma EnsureIsLocal(p: Process, flag: string, table: string, cols: seq<ColumnSpec>, declared: bool, t: string)
    requires t != table
    ensures Same(Ensure(p, flag, table, cols, declared).columns, p.columns, t)
  {
    hide CatchUp, Agree, Creatable, Made, Spelled;
  }

  /** An event leaves what is cached for other tables alone. */
  lemma StepIsLocal(p: Process, flag: string, e: Event, t: string)
    requires e.table != t
    ensures Same(Step(p, flag, e).columns, p.columns, t)
  {
    hide Ensure, Evolved, Binds, PutOf, D.Skips, Inferred;
    if e.change.IsRow() {
      EnsureIsLocal(p, flag, e.table, Inferred(e.change.Image()), false, t);
    } else if !e.change.DropTable? {
      EnsureIsLocal(p, flag, e.table, e.change.columns, true, t);
    }
  }

  /** A row leaves its columns cached: those that were, or its own. */
  lemma RowCaches(p: Process, flag: string, e: Event)
    requires e.change.IsRow() && ApplyRow(p, flag, e).ok
    ensures ApplyRow(p, flag, e).columns == p.columns[e.table := Bound(p.columns, e)]
  {
    hide Ensure, Binds, PutOf, Inferred;
    if e.table in p.columns {
      assert p.columns[e.table := p.columns[e.table]] == p.columns;
    } else {
      EnsuredCache(p, flag, e.table, Inferred(e.change.Image()), false);
    }
  }

  /** What one event leaves cached for a table, and what going over it does. */
  lemma StepTells(p: Process, flag: string, e: Event, b: Cache, t: string)
    requires Step(p, flag, e).ok
    requires e.table == t ==> !IsColumnChange(e.change)
    requires e.table == t && e.change.IsRow() && !e.change.Read? ==> t in b
    requires (e.table == t && (e.change.CreateTable? || e.change.DropTable?)) || Same(p.columns, b, t)
    ensures Same(Step(p, flag, e).columns, Recall(b, e), t)
  {
    if e.table != t {
      hide Step;
      StepIsLocal(p, flag, e, t);
    } else if e.change.CreateTable? {
      hide Ensure;
      EnsuredCache(p, flag, e.table, e.change.columns, true);
    } else if e.change.IsRow() && !D.Skips(p.db, e) {
      RowIsApplied(p, flag, e);
      hide Apply, ApplyRow, D.Skips;
      RowCaches(p, flag, e);
    }
  }

  lemma {:induction false} ToldIsKept(p: Process, flag: string, done: seq<Event>, t: string)
    requires p.columns == map[] && Told(done, t) && Outcome(p, flag, done).1
    ensures Same(Outcome(p, flag, done).0.columns, Recalled(map[], done), t)
    decreases |done|
  {
    hide Step, Outcome, Recall, Recalled;
    if done == [] {
      OutcomeNil(p, flag);
      assert Recalled(map[], []) == map[] by { NothingRecalled(); }
    } else {
      var init, e := done[..|done| - 1], done[|done| - 1];
      assert done == init + [e];
      OutcomeSnoc(p, flag, init, e);
      RecalledSnoc(map[], init, e);
      if !(e.table == t && (e.change.CreateTable? || e.change.DropTable?)) {
        ToldIsKept(p, flag, init, t);
      }
      StepTells(Outcome(p, flag, init).0, flag, e, Recalled(map[], init), t);
    }
  }

  lemma NothingRecalled()
    ensures Recalled(map[], []) == map[]
  {
  }

  /** Caches with the same columns for every table that is still to have a row. */
  ghost predicate SameFor(a: Cache, b: Cache, feed: seq<Event>) {
    forall e :: e in feed && e.change.IsRow() ==> Same(a, b, e.table)
  }

  lemma SameIsAlike(db: D.Database, a: Cache, b: Cache, e: Event)
    requires e.change.IsRow() ==> Same(a, b, e.table)
    ensures Alike(db, a, b, e)
  {
    hide Behind, Binds, Holds, D.Skips;
  }

  lemma SameStays(db: D.Database, a: Cache, b: Cache, flag: string, e: Event, t: string)
    requires Same(a, b, t) && (e.change.IsRow() ==> Same(a, b, e.table))
    ensures Same(Step(Process(db, a), flag, e).columns, Step(Process(db, b), flag, e).columns, t)
  {
    var p, q := Process(db, a), Process(db, b);
    if e.table != t {
      hide Step;
      StepIsLocal(p, flag, e, t);
      StepIsLocal(q, flag, e, t);
    } else if e.change.IsRow() {
      RowIsApplied(p, flag, e);
      RowIsApplied(q, flag, e);
      RowSplits(p, flag, e);
      RowSplits(q, flag, e);
      hide Apply, ApplyRow, Ensure, Binds, PutOf, D.Skips, Inferred, Written;
      EnsuresAlike(p, q, flag, t, Inferred(e.change.Image()), false);
    } else {
      SchemaStays(p, q, flag, e);
      hide Apply, D.Skips;
    }
  }

  lemma SchemaStays(p: Process, q: Process, flag: string, e: Event)
    requires p.db == q.db && Same(p.columns, q.columns, e.table) && !e.change.IsRow()
    ensures Same(Apply(p, flag, e).columns, Apply(q, flag, e).columns, e.table)
  {
    hide Ensure, Evolved;
    if !e.change.DropTable? {
      EnsuresAlike(p, q, flag, e.table, e.change.columns, true);
    }
  }

  lemma EnsuresAlike(p: Process, q: Process, flag: string, t: string, cols: seq<ColumnSpec>, declared: bool)
    requires p.db == q.db && Same(p.columns, q.columns, t)
    ensures var x, y := Ensure(p, flag, t, cols, declared), Ensure(q, flag, t, cols, declared);
            x.states == y.states && x.ok == y.ok && Same(x.columns, y.columns, t)
  {
    hide CatchUp, Agree, Creatable, Made, Spelled;
  }

  lemma {:induction false} SameIsAlikeThroughout(db: D.Database, a: Cache, b: Cache, flag: string, feed: seq<Event>)
    requires SameFor(a, b, feed) && AllWellFormed(feed) && Cached(Process(db, a)) && Cached(Process(db, b))
    ensures AlikeThroughout(db, a, b, flag, feed)
    decreases |feed|
  {
    hide Step, Alike, Cached, Same, WellFormed;
    if feed != [] {
      var e, p, q := feed[0], Process(db, a), Process(db, b);
      SameIsAlike(db, a, b, e);
      StepAlikeIff(db, a, b, flag, e);
      var x, y := Step(p, flag, e), Step(q, flag, e);
      StepKeepsCached(p, flag, e);
      StepKeepsCached(q, flag, e);
      forall r | r in feed[1..] && r.change.IsRow()
        ensures Same(x.columns, y.columns, r.table)
      {
        SameStays(db, a, b, flag, e, r.table);
      }
      if x.ok {
        SameIsAlikeThroughout(D.Final(db, x.states), x.columns, y.columns, flag, feed[1..]);
      }
    }
  }

  /**
   A run killed anywhere but inside a retype that moves the key, whose events still describe the
   destination: the restart ends as the run would have when going over them tells it the columns of
   every table the rest of the feed has rows for.
   */
  lemma ToldRestart(db: D.Database, flag: string, feed: seq<Event>, n: nat, s: D.Database)
    requires AllWellFormed(feed) && n <= |feed| && CutAt(Opened(db), flag, feed, n, s)
    requires !Moved(Opened(db), flag, feed, n, s) && Stands(s, map[], feed[..n])
    requires forall e :: e in feed[n..] && e.change.IsRow() ==> Told(feed[..n], e.table)
    ensures SameSoFar(Opened(s), Opened(db), flag, feed)
  {
    hide Outcome, WellFormed, Moved, Stands, Told, Recalled, Cached, CutInside, AlikeThroughout, Same, E.Covers;
    var done, rest := feed[..n], feed[n..];
    var kept, recalled := At(Opened(db), flag, feed, n).columns, Recalled(map[], done);
    forall e | e in rest && e.change.IsRow()
      ensures Same(kept, recalled, e.table)
    {
      ToldIsKept(Opened(db), flag, done, e.table);
    }
    OpenedIs(db);
    OpenedIs(s);
    KeptGoesOn(Opened(db), flag, feed, n, s);
    RecalledIsThere(s, map[], done);
    SameIsAlikeThroughout(s, kept, recalled, flag, rest);
    SafeRestart(db, flag, feed, n, s);
  }
}
