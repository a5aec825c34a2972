/**
 When a restart of the SQLite sink is safe without looking at the run, and three short feeds on which it
 is not.
 */
module SqliteConvergence {
  import opened Feed
  import opened Destination
  import opened SqliteSpec
  import opened SqliteReplay
  import D = DuckSpec
  import E = Evolution
  import R = Replay
  import Strings

  /** The one shape of each table. */
  type Shapes = map<string, seq<ColumnSpec>>

  /** A row that carries exactly its table's columns, or a declaration of them. */
  ghost predicate Uniform(shapes: Shapes, e: Event) {
    && (e.change.IsRow() || e.change.CreateTable?) && R.Storable(e)
    && e.table in shapes && Creatable(Names(shapes[e.table]))
    && (e.change.CreateTable? ==> e.change.columns == shapes[e.table])
    && (e.change.IsRow() ==> forall c :: c in e.change.Image() <==> c in Names(shapes[e.table]))
  }

  ghost predicate AllUniform(shapes: Shapes, feed: seq<Event>) {
    forall e :: e in feed ==> Uniform(shapes, e)
  }

  ghost predicate SameNames(a: seq<string>, b: seq<string>) {
    forall c :: c in a <==> c in b
  }

  /** The tables have the columns of their shapes, in any order; and so does what is cached of them. */
  ghost predicate InShape(shapes: Shapes, p: Process) {
    && (forall t :: t in p.db.tables && t in shapes ==> SameNames(Names(p.db.tables[t].columns), Names(shapes[t])))
    && (forall t :: t in p.columns && t in shapes ==> SameNames(p.columns[t], Names(shapes[t])))
  }

  lemma UniformIsWellFormed(shapes: Shapes, e: Event)
    requires Uniform(shapes, e)
    ensures WellFormed(e)
  {
    hide D.Bookkeeping;
    if e.change.IsRow() {
      var names := Strings.Sorted(e.change.Image().Keys);
      assert forall n :: n in names ==> n in Names(shapes[e.table]);
    }
  }

  lemma AllAreWellFormed(shapes: Shapes, feed: seq<Event>)
    requires AllUniform(shapes, feed)
    ensures AllWellFormed(feed)
  {
    hide Uniform, WellFormed;
    forall e | e in feed
      ensures WellFormed(e)
    {
      UniformIsWellFormed(shapes, e);
    }
  }

  /** A table with the columns of a shape is not behind it. */
  lemma NotBehind(got: seq<ColumnSpec>, want: seq<ColumnSpec>, declared: bool)
    requires Distinct(Names(want)) && SameNames(Names(got), Names(want))
    ensures !Behind(got, want, declared)
  {
    hide AffinityOf;
    if |got| < |want| {
      assert Names(want)[|got|] in Names(want);
    }
  }

  lemma InferredNames(shapes: Shapes, e: Event)
    requires Uniform(shapes, e) && e.change.IsRow()
    ensures var names := Names(Spelled(Inferred(e.change.Image())));
            && Distinct(names) && SameNames(names, Names(shapes[e.table]))
            && names == Strings.Sorted(e.change.Image().Keys)
  {
    hide Creatable;
  }

  lemma NothingToCatch(shapes: Shapes, p: Process, e: Event)
    requires Uniform(shapes, e) && e.change.IsRow() && e.table in p.db.tables && InShape(shapes, p)
    ensures !Catches(p.db, p.columns, e)
  {
    InferredNames(shapes, e);
    hide Spelled, Inferred, Creatable, Behind;
    NotBehind(p.db.tables[e.table].columns, Spelled(Inferred(e.change.Image())), false);
  }

  lemma BoundIsWhole(shapes: Shapes, p: Process, e: Event)
    requires Uniform(shapes, e) && e.change.IsRow() && InShape(shapes, p)
    ensures SameNames(Bound(p.columns, e), Names(shapes[e.table]))
  {
    hide Creatable;
  }

  /** Whole images bind the same columns under any cache in shape. */
  lemma UniformIsAlike(shapes: Shapes, db: D.Database, a: Cache, b: Cache, e: Event)
    requires Uniform(shapes, e) && InShape(shapes, Process(db, a)) && InShape(shapes, Process(db, b))
    ensures Alike(db, a, b, e)
  {
    if e.change.IsRow() && e.table in db.tables {
      NothingToCatch(shapes, Process(db, a), e);
      NothingToCatch(shapes, Process(db, b), e);
      BoundIsWhole(shapes, Process(db, a), e);
      BoundIsWhole(shapes, Process(db, b), e);
      hide Catches, InShape, Uniform, Bound, Holds, D.Skips;
      assert SameNames(Bound(a, e), Bound(b, e));
    }
  }

  // --- what a uniform event keeps -----------------------------------------------------------------

  /** Every table stays, with its columns and its rows at no smaller stamp. */
  ghost predicate Keeps(db: D.Database, next: D.Database) {
    forall t :: t in db.tables ==>
      && t in next.tables && next.tables[t].columns == db.tables[t].columns
      && R.LaterTable(db.tables[t], next.tables[t])
  }

  lemma KeepsItself(db: D.Database)
    ensures Keeps(db, db)
  {
  }

  lemma KeepsOn(a: D.Database, b: D.Database, c: D.Database)
    requires Keeps(a, b) && Keeps(b, c)
    ensures Keeps(a, c)
  {
    hide Above;
    forall t | t in a.tables
      ensures t in c.tables && c.tables[t].columns == a.tables[t].columns && R.LaterTable(a.tables[t], c.tables[t])
    {
      assert R.LaterTable(a.tables[t], b.tables[t]) && R.LaterTable(b.tables[t], c.tables[t]);
      LaterTableOn(a.tables[t], b.tables[t], c.tables[t]);
    }
  }

  lemma LaterTableOn(t: Table, u: Table, v: Table)
    requires R.LaterTable(t, u) && R.LaterTable(u, v)
    ensures R.LaterTable(t, v)
  {
  }

  /** An ensured table is made in shape, or is already there and left alone. */
  lemma EnsureUniform(shapes: Shapes, p: Process, flag: string, table: string, cols: seq<ColumnSpec>, declared: bool)
    requires table in shapes && InShape(shapes, p)
    requires Creatable(Names(cols)) && SameNames(Names(cols), Names(shapes[table]))
    ensures var r := Ensure(p, flag, table, cols, declared);
            && |r.states| == 1 && Keeps(p.db, r.states[0]) && InShape(shapes, Process(r.states[0], p.columns))
            && (r.ok ==>
                  InShape(shapes, Process(r.states[0], r.columns)) && r.columns == p.columns[table := Names(cols)])
            && table in r.states[0].tables
            && (declared && r.ok ==> Agree(Spelled(cols), r.states[0].tables[table].columns))
  {
    hide AffinityOf;
    if table in p.db.tables {
      NotBehind(p.db.tables[table].columns, Spelled(cols), declared);
      KeepsItself(p.db);
    } else {
      var made := p.db.(tables := p.db.tables[table := Made(Spelled(cols), flag)]);
      MadeIsCurrent(made, table, Spelled(cols), flag, declared);
    }
  }

  lemma PutUniform(shapes: Shapes, p: Process, cached: seq<string>, e: Event)
    requires e.change.IsRow() && e.table in p.db.tables && D.NamesRow(p.db.tables[e.table], e.change.Image())
    requires InShape(shapes, p)
    ensures var next := D.ExecIn(p.db, e.table, PutOf(p.db.tables[e.table], cached, e));
            && Keeps(p.db, next) && InShape(shapes, Process(next, p.columns))
            && Holds(next.tables[e.table], e) && next.tables[e.table].key == p.db.tables[e.table].key
  {
    var next := D.ExecIn(p.db, e.table, PutOf(p.db.tables[e.table], cached, e));
    assert next.tables[e.table].columns == p.db.tables[e.table].columns;
    assert R.LaterTable(p.db.tables[e.table], next.tables[e.table]);
  }

  ghost predicate Extends(fewer: Cache, more: Cache) {
    forall t :: t in fewer ==> t in more && more[t] == fewer[t]
  }

  lemma SettledUniform(shapes: Shapes, p: Process, flag: string, e: Event)
    requires Uniform(shapes, e) && e.change.IsRow() && InShape(shapes, p)
    ensures var r := Settled(p, flag, e);
            && (forall s :: s in r.states ==> Keeps(p.db, s) && InShape(shapes, Process(s, p.columns)))
            && Keeps(p.db, End(p, r).db)
            && (r.ok ==> InShape(shapes, End(p, r)) && Extends(p.columns, r.columns))
  {
    var cols := Inferred(e.change.Image());
    UniformIsWellFormed(shapes, e);
    assert Creatable(Names(cols)) && SameNames(Names(cols), Names(shapes[e.table]));
    hide Ensure, Inferred, Creatable, InShape, Keeps, Uniform, WellFormed;
    KeepsItself(p.db);
    if e.table !in p.columns {
      EnsureUniform(shapes, p, flag, e.table, cols, false);
    }
  }

  lemma RowUniform(shapes: Shapes, p: Process, flag: string, e: Event)
    requires Uniform(shapes, e) && e.change.IsRow() && InShape(shapes, p)
    ensures var r := ApplyRow(p, flag, e);
            && (forall s :: s in r.states ==> Keeps(p.db, s) && InShape(shapes, Process(s, p.columns)))
            && (r.ok ==> InShape(shapes, End(p, r)) && TakenIn(End(p, r).db, e))
  {
    hide Settled, ApplyRow, PutOf, InShape, Keeps, Holds, Uniform, Exec, Agree;
    SettledUniform(shapes, p, flag, e);
    RowSplits(p, flag, e);
    var r, settled := ApplyRow(p, flag, e), Settled(p, flag, e);
    if r.ok {
      var at, next := D.Final(p.db, settled.states), Written(p, settled, e);
      PutUniform(shapes, Process(at, settled.columns), settled.columns[e.table], e);
      KeepsOn(p.db, at, next);
      FewerCached(shapes, next, p.columns, settled.columns);
    }
  }

  lemma FewerCached(shapes: Shapes, db: D.Database, fewer: Cache, more: Cache)
    requires InShape(shapes, Process(db, more)) && Extends(fewer, more)
    ensures InShape(shapes, Process(db, fewer))
  {
  }

  lemma ApplyUniform(shapes: Shapes, p: Process, flag: string, e: Event)
    requires Uniform(shapes, e) && InShape(shapes, p)
    ensures var r := Apply(p, flag, e);
            && (forall s :: s in r.states ==> Keeps(p.db, s) && InShape(shapes, Process(s, p.columns)))
            && (r.ok ==> InShape(shapes, End(p, r)) && Keeps(p.db, End(p, r).db) && TakenIn(End(p, r).db, e))
  {
    KeepsItself(p.db);
    if e.change.CreateTable? {
      hide Keeps, InShape, Agree, Ensure;
      EnsureUniform(shapes, p, flag, e.table, e.change.columns, true);
    } else {
      hide Keeps, InShape, TakenIn, ApplyRow;
      RowUniform(shapes, p, flag, e);
    }
  }

  /** What a landed event leaves true: its declaration agrees with the table, its row is held. */
  ghost predicate TakenIn(db: D.Database, e: Event) {
    && e.table in db.tables
    && (e.change.CreateTable? ==> Agree(Spelled(e.change.columns), db.tables[e.table].columns))
    && (e.change.Read? ==> db.tables[e.table].key != "" && Holds(db.tables[e.table], e))
  }

  /** Of the events gone over so far, the ones that no cursor skips. */
  ghost predicate AllTaken(db: D.Database, done: seq<Event>) {
    forall e :: e in done && e.change.BypassesCursor() ==> TakenIn(db, e)
  }

  lemma TakenStays(db: D.Database, next: D.Database, e: Event)
    requires Keeps(db, next) && TakenIn(db, e)
    ensures TakenIn(next, e)
  {
    hide Agree;
    assert R.LaterTable(db.tables[e.table], next.tables[e.table]);
  }

  lemma AllTakenStays(db: D.Database, next: D.Database, done: seq<Event>)
    requires Keeps(db, next) && AllTaken(db, done)
    ensures AllTaken(next, done)
  {
    hide Keeps, TakenIn;
    forall e | e in done && e.change.BypassesCursor()
      ensures TakenIn(next, e)
    {
      TakenStays(db, next, e);
    }
  }

  lemma SavedKeeps(db: D.Database, table: string, s: Stamp)
    ensures Keeps(db, D.SaveCursor(db, table, s)) && D.SaveCursor(db, table, s).tables == db.tables
  {
  }

  lemma StepUniform(shapes: Shapes, p: Process, flag: string, e: Event, done: seq<Event>)
    requires Uniform(shapes, e) && InShape(shapes, p) && AllTaken(p.db, done) && Step(p, flag, e).ok
    ensures InShape(shapes, End(p, Step(p, flag, e))) && AllTaken(End(p, Step(p, flag, e)).db, done + [e])
  {
    hide Apply, Keeps, TakenIn, Uniform, D.Skips;
    if !D.Skips(p.db, e) {
      ApplyUniform(shapes, p, flag, e);
      var at := End(p, Apply(p, flag, e));
      AllTakenStays(p.db, at.db, done);
      SavedKeeps(at.db, e.table, D.StampOf(e));
      if !e.change.BypassesCursor() {
        AllTakenStays(at.db, D.SaveCursor(at.db, e.table, D.StampOf(e)), done);
      }
    } else {
      SkippedIsStreamed(p.db, e);
    }
  }

  lemma SkippedIsStreamed(db: D.Database, e: Event)
    requires D.Skips(db, e)
    ensures !e.change.BypassesCursor()
  {
  }

  lemma {:induction false} RunUniform(shapes: Shapes, p: Process, flag: string, feed: seq<Event>, n: nat)
    requires AllUniform(shapes, feed) && InShape(shapes, p) && n <= |feed| && Outcome(p, flag, feed[..n]).1
    ensures InShape(shapes, At(p, flag, feed, n)) && AllTaken(At(p, flag, feed, n).db, feed[..n])
    decreases n
  {
    hide Step, Outcome, InShape, AllTaken, Uniform;
    if n == 0 {
      OutcomeNil(p, flag);
      assert feed[..0] == [];
      NoneTaken(p.db);
    } else {
      var e := feed[n - 1];
      assert feed[..n] == feed[..n - 1] + [e];
      OutcomeSnoc(p, flag, feed[..n - 1], e);
      RunUniform(shapes, p, flag, feed, n - 1);
      StepUniform(shapes, At(p, flag, feed, n - 1), flag, e, feed[..n - 1]);
    }
  }

  lemma NoneTaken(db: D.Database)
    ensures AllTaken(db, [])
  {
  }

  /** Where a killed run of uniform events leaves off, all it took in still holds, under the cache it had. */
  lemma CutUniform(shapes: Shapes, p: Process, flag: string, feed: seq<Event>, n: nat, s: D.Database)
    requires AllUniform(shapes, feed) && InShape(shapes, p) && n <= |feed| && CutAt(p, flag, feed, n, s)
    ensures InShape(shapes, Process(s, At(p, flag, feed, n).columns)) && AllTaken(s, feed[..n])
  {
    hide Outcome, InShape, AllTaken, Uniform, Keeps, Apply;
    RunUniform(shapes, p, flag, feed, n);
    var at := At(p, flag, feed, n);
    if s != at.db {
      ApplyUniform(shapes, at, flag, feed[n]);
      AllTakenStays(at.db, s, feed[..n]);
    }
  }

  lemma TakenDescribes(shapes: Shapes, p: Process, e: Event)
    requires Uniform(shapes, e) && InShape(shapes, p) && e.change.BypassesCursor() && TakenIn(p.db, e)
    ensures Describes(p.db, p.columns, e) && InShape(shapes, Process(p.db, Recall(p.columns, e)))
  {
    var t := p.db.tables[e.table];
    if e.change.CreateTable? {
      hide AffinityOf;
      NotBehind(t.columns, Spelled(e.change.columns), true);
    } else {
      NothingToCatch(shapes, p, e);
      BoundIsWhole(shapes, p, e);
      hide Catches, Bound;
    }
  }

  lemma {:induction false} TakenStands(shapes: Shapes, p: Process, done: seq<Event>)
    requires AllUniform(shapes, done) && InShape(shapes, p) && AllTaken(p.db, done)
    ensures Stands(p.db, p.columns, done) && InShape(shapes, Process(p.db, Recalled(p.columns, done)))
    decreases |done|
  {
    hide Uniform, InShape, TakenIn, Describes;
    if done != [] {
      var e := done[0];
      if e.change.BypassesCursor() {
        TakenDescribes(shapes, p, e);
      } else {
        StreamedRecallsNothing(p.columns, e);
      }
      TakenStands(shapes, Process(p.db, Recall(p.columns, e)), done[1..]);
    }
  }

  lemma StreamedRecallsNothing(columns: Cache, e: Event)
    requires !e.change.BypassesCursor()
    ensures Recall(columns, e) == columns
  {
  }

  lemma {:induction false} UniformIsAlikeThroughout(
    shapes: Shapes, db: D.Database, a: Cache, b: Cache, flag: string, feed: seq<Event>)
    requires AllUniform(shapes, feed) && Cached(Process(db, a)) && Cached(Process(db, b))
    requires InShape(shapes, Process(db, a)) && InShape(shapes, Process(db, b))
    ensures AlikeThroughout(db, a, b, flag, feed)
    decreases |feed|
  {
    hide Step, Uniform, InShape, Alike, Cached, AllTaken;
    if feed != [] {
      var e, p, q := feed[0], Process(db, a), Process(db, b);
      UniformIsAlike(shapes, db, a, b, e);
      UniformIsWellFormed(shapes, e);
      StepAlikeIff(db, a, b, flag, e);
      var x, y := Step(p, flag, e), Step(q, flag, e);
      if x.ok {
        NoneTaken(db);
        StepUniform(shapes, p, flag, e, []);
        StepUniform(shapes, q, flag, e, []);
        StepKeepsCached(p, flag, e);
        StepKeepsCached(q, flag, e);
        UniformIsAlikeThroughout(shapes, D.Final(db, x.states), x.columns, y.columns, flag, feed[1..]);
      }
    }
  }

  /** A uniform run killed anywhere and restarted ends as it would have. */
  lemma UniformRestart(shapes: Shapes, db: D.Database, flag: string, feed: seq<Event>, n: nat, s: D.Database)
    requires AllUniform(shapes, feed) && InShape(shapes, Opened(db))
    requires n <= |feed| && CutAt(Opened(db), flag, feed, n, s)
    ensures SameSoFar(Opened(s), Opened(db), flag, feed) && InShape(shapes, Opened(s))
  {
    assert n < |feed| ==> Uniform(shapes, feed[n]);
    assert n < |feed| ==> !feed[n].change.AlterColumnType?;
    assert AllUniform(shapes, feed[..n]) && AllUniform(shapes, feed[n..]);
    var done, rest, kept := feed[..n], feed[n..], At(Opened(db), flag, feed, n).columns;
    hide Outcome, CutAt, InShape, AllTaken, AllUniform, Stands, AlikeThroughout, Recalled, InStep, At, Cached;
    hide AllWellFormed, E.Covers;
    AllAreWellFormed(shapes, feed);
    CutUniform(shapes, Opened(db), flag, feed, n, s);
    FewerCached(shapes, s, map[], kept);
    TakenStands(shapes, Opened(s), done);
    RestartGoesOnIff(db, flag, feed, n, s);
    OpenedIs(db);
    KeptGoesOn(Opened(db), flag, feed, n, s);
    OpenedIs(s);
    RecalledIsThere(s, map[], done);
    UniformIsAlikeThroughout(shapes, s, kept, Recalled(map[], done), flag, rest);
    WholeFeed(Process(s, kept), Process(s, Recalled(map[], done)), flag, rest);
  }

  lemma WholeFeed(p: Process, q: Process, flag: string, feed: seq<Event>)
    requires InStep(p, q, flag, feed)
    ensures SameSoFar(p, q, flag, feed)
  {
    hide Outcome;
    assert feed[..|feed|] == feed;
  }

  /** Databases left by successive runs of one feed, each killed after any statement or none. */
  ghost predicate KilledRuns(dbs: seq<D.Database>, flag: string, feed: seq<Event>) {
    && dbs != []
    && forall i :: 0 <= i < |dbs| - 1 ==> dbs[i + 1] == dbs[i] || dbs[i + 1] in Run(Opened(dbs[i]), flag, feed).states
  }

  /**
   When every row carries exactly its table's columns, in any order of delivery, any number of runs
   restarted from the first line, each killed anywhere, followed by one complete run, leave the database
   and the verdict of a single uninterrupted run.
   */
  lemma {:induction false} UniformConvergence(shapes: Shapes, dbs: seq<D.Database>, flag: string, feed: seq<Event>)
    requires AllUniform(shapes, feed) && KilledRuns(dbs, flag, feed) && InShape(shapes, Opened(dbs[0]))
    ensures SameSoFar(Opened(dbs[|dbs| - 1]), Opened(dbs[0]), flag, feed) && InShape(shapes, Opened(dbs[|dbs| - 1]))
    decreases |dbs|
  {
    hide Run, Outcome, InShape, AllUniform, CutAt;
    if |dbs| > 1 {
      var i := |dbs| - 2;
      assert dbs[i + 1] == dbs[i] || dbs[i + 1] in Run(Opened(dbs[i]), flag, feed).states;
      UniformConvergence(shapes, dbs[..|dbs| - 1], flag, feed);
      var n := EveryStateIsACut(Opened(dbs[i]), flag, feed, dbs[i + 1]);
      CutInFeed(Opened(dbs[i]), flag, feed, n, dbs[i + 1]);
      UniformRestart(shapes, dbs[i], flag, feed, n, dbs[i + 1]);
    }
  }

  lemma CutInFeed(p: Process, flag: string, feed: seq<Event>, n: nat, s: D.Database)
    requires CutAt(p, flag, feed, n, s)
    ensures n <= |feed|
  {
  }

  // ---------------------------------------------------------------------------------------------
  // Restarts that do not converge.

  const EMPTY := D.Database(map[], map[])
  const SHORT := [ColumnSpec("id", "INTEGER")]
  const LONG := [ColumnSpec("id", "INTEGER"), ColumnSpec("note", "TEXT")]

  /** A table declared, a column added, and a row that has it. */
  const ADDED := [
    Event("t", CreateTable(SHORT), 1, 1, 2, None),
    Event("t", AddColumn(LONG, "note"), 5, 5, 6, None),
    Event("t", Insert(map["id" := Number("1"), "note" := Text("kept?")]), 8, 8, 9, None)]

  const DECLARED := D.Database(map["t" := Table(SHORT, "id", map[])], map[])
  const EXTENDED := D.Database(map["t" := Table(LONG, "id", map[])], map["t" := Stamp(5, 5)])

  lemma ShortIsSpelled()
    ensures Spelled(SHORT) == SHORT && Names(SHORT) == ["id"] && Spelled(LONG) == LONG && Names(LONG) == ["id", "note"]
  {
    assert SqlType("INTEGER") == "INTEGER" && SqlType("TEXT") == "TEXT";
  }

  lemma DeclareStep()
    ensures Step(Opened(EMPTY), "id", ADDED[0]) == Result([DECLARED], map["t" := ["id"]], true)
  {
    ShortIsSpelled();
    assert Made(SHORT, "id") == Table(SHORT, "id", map[]);
  }

  lemma AddStep()
    ensures var p := Process(DECLARED, map["t" := ["id"]]);
            && End(p, Step(p, "id", ADDED[1])) == Process(EXTENDED, map["t" := ["id", "note"]])
            && Step(p, "id", ADDED[1]).ok
  {
    ShortIsSpelled();
    var t, c := Table(SHORT, "id", map[]), ColumnSpec("note", "TEXT");
    assert LastTypeIn(LONG, "note") == Some("TEXT");
    assert AddIfNew(t, c) == Table(LONG, "id", map[]) by {
      assert SHORT + [c] == LONG;
      assert Exec(t, Add(c)).rows == map[];
    }
    assert Evolved(t, "id", ADDED[1].change) == Some(Table(LONG, "id", map[]));
  }

  lemma DeclareAgain()
    ensures Step(Opened(EXTENDED), "id", ADDED[0]) == Result([EXTENDED], map["t" := ["id"]], true)
  {
    ShortIsSpelled();
    assert Agree(SHORT, LONG) by {
      assert AffinityOf("INTEGER") == IntegerAffinity;
    }
  }

  /** The row lands whole or without the added column, by which of the two caches binds it. */
  lemma InsertUnder(cached: seq<string>)
    requires cached == ["id"] || cached == ["id", "note"]
    ensures var p := Process(EXTENDED, map["t" := cached]); var step := Step(p, "id", ADDED[2]);
            step.ok && NoteOf(End(p, step).db) == Some(if "note" in cached then Text("kept?") else Null)
  {
    ShortIsSpelled();
    var p, t, e := Process(EXTENDED, map["t" := cached]), EXTENDED.tables["t"], ADDED[2];
    assert "note" == Names(LONG)[1] && "id" == cached[0];
    assert Binds(t, cached, e.change.Image());
    InsertPuts(cached);
    hide Binds, PutOf;
    assert Apply(p, "id", e) == Result([D.ExecIn(EXTENDED, "t", PutOf(t, cached, e))], p.columns, true);
  }

  lemma InsertPuts(cached: seq<string>)
    ensures var put := PutOf(EXTENDED.tables["t"], cached, ADDED[2]);
            && put.key == Number("1") && "note" in put.cells
            && put.cells["note"] == if "note" in cached then Text("kept?") else Null
  {
    assert Names(LONG)[1] == "note";
  }

  /**
   A run killed once the added column has landed: the restart takes the first declaration's columns from
   going over it, skips the change that added one, and lands the next row without its value. Both succeed.
   */
  lemma RestartLosesAddedColumn()
    ensures var s := At(Opened(EMPTY), "id", ADDED, 2).db;
            var once, again := Outcome(Opened(EMPTY), "id", ADDED), Outcome(Opened(s), "id", ADDED);
            && CutAt(Opened(EMPTY), "id", ADDED, 2, s) && once.1 && again.1
            && NoteOf(once.0.db) == Some(Text("kept?")) && NoteOf(again.0.db) == Some(Null)
  {
    hide Step, Outcome, Run;
    DeclareStep();
    AddStep();
    DeclareAgain();
    InsertUnder(["id"]);
    InsertUnder(["id", "note"]);
    assert ["id", "note"][1] == "note" && "note" !in ["id"];
    var p0, p1 := Opened(EMPTY), Process(DECLARED, map["t" := ["id"]]);
    var p2, q1 := Process(EXTENDED, map["t" := ["id", "note"]]), Process(EXTENDED, map["t" := ["id"]]);
    TwoSteps(p0, p1, p2, ADDED);
    SkipsAdded(q1);
    TwoSteps(Opened(EXTENDED), q1, q1, ADDED);
    assert ADDED == ADDED[..2] + [ADDED[2]];
    OutcomeSnoc(p0, "id", ADDED[..2], ADDED[2]);
    OutcomeSnoc(Opened(EXTENDED), "id", ADDED[..2], ADDED[2]);
  }

  function NoteOf(db: D.Database): Option<Value> {
    if "t" in db.tables && Number("1") in db.tables["t"].rows && "note" in db.tables["t"].rows[Number("1")].cells
    then Some(db.tables["t"].rows[Number("1")].cells["note"]) else None
  }

  lemma SkipsAdded(p: Process)
    requires p.db == EXTENDED
    ensures Step(p, "id", ADDED[1]) == Result([], p.columns, true) && End(p, Step(p, "id", ADDED[1])) == p
  {
  }

  lemma TwoSteps(p0: Process, p1: Process, p2: Process, feed: seq<Event>)
    requires |feed| >= 2
    requires End(p0, Step(p0, "id", feed[0])) == p1 && Step(p0, "id", feed[0]).ok
    requires End(p1, Step(p1, "id", feed[1])) == p2 && Step(p1, "id", feed[1]).ok
    ensures Outcome(p0, "id", feed[..2]) == (p2, true)
  {
    hide Step, Outcome;
    OutcomeNil(p0, "id");
    assert feed[..2] == ([] + [feed[0]]) + [feed[1]];
    OutcomeSnoc(p0, "id", [], feed[0]);
    OutcomeSnoc(p0, "id", [] + [feed[0]], feed[1]);
  }

  // --- a retype that moves the key ----------------------------------------------------------------

  /** A table keyed `sku` in a process started for `id`, and a retype whose shape has only the second. */
  const KEYED :=
    D.Database(map["t" := Table([ColumnSpec("sku", "TEXT"), ColumnSpec("id", "INTEGER")], "sku", map[])], map[])

  const RETYPED := [
    Event("t", AlterColumnType([ColumnSpec("id", "BIGINT")], "id", "INTEGER", "BIGINT"), 5, 5, 6, None),
    Event("t", Insert(map["id" := Number("1")]), 8, 8, 9, None)
  ]

  /** What the retype leaves of the table, under one key or none. */
  function Narrowed(key: string): Table {
    Table([ColumnSpec("id", "INTEGER")], key, map[])
  }

  lemma RetypeNarrows()
    ensures Evolved(KEYED.tables["t"], "id", RETYPED[0].change) == Some(Narrowed(""))
    ensures Evolved(Narrowed(""), "id", RETYPED[0].change) == Some(Narrowed("id"))
  {
    var t, cols := KEYED.tables["t"], RETYPED[0].change.columns;
    assert Spelled(cols) == [ColumnSpec("id", "INTEGER")];
    assert Names(cols) == ["id"] && Names(t.columns) == ["sku", "id"];
    assert Names(t.columns)[1] == "id" && Names(Narrowed("").columns)[0] == "id";
    assert MayRebuild(t, cols) && MayRebuild(Narrowed(""), cols);
    assert RebuiltTable(t, "id", cols).rows == map[] && RebuiltTable(Narrowed(""), "id", cols).rows == map[];
  }

  lemma RetypeStep(db: D.Database, t: Table, u: Table)
    requires db == D.Database(map["t" := t], map[]) && Evolved(t, "id", RETYPED[0].change) == Some(u)
    requires Names(u.columns) == ["id"]
    ensures var p, s := Opened(db), D.Database(map["t" := u], map[]);
            && Apply(p, "id", RETYPED[0]) == Result([s], map["t" := ["id"]], true)
            && Step(p, "id", RETYPED[0]).ok && !D.Skips(db, RETYPED[0])
            && End(p, Step(p, "id", RETYPED[0])) ==
               Process(D.Database(map["t" := u], map["t" := Stamp(5, 5)]), map["t" := ["id"]])
  {
    hide Evolved;
    assert map["t" := t]["t" := u] == map["t" := u];
  }

  lemma NextRow(key: string)
    requires key == "" || key == "id"
    ensures var p := Process(D.Database(map["t" := Narrowed(key)], map["t" := Stamp(5, 5)]), map["t" := ["id"]]);
            Step(p, "id", RETYPED[1]).ok <==> key == "id"
  {
    var t := Narrowed(key);
    assert Names(t.columns) == ["id"] && ["id"][0] == "id";
    hide Narrowed;
    assert Binds(t, ["id"], RETYPED[1].change.Image()) <==> key == "id";
    hide Binds, PutOf;
  }

  /**
   Killed once such a retype is done and before its position is recorded. The run that was not killed has
   a table with no primary key and stops at the next row; the restart repeats the retype, takes the flag's
   column for the key, and lands the row.
   */
  lemma RestartMovesKey()
    ensures var s := D.Database(map["t" := Narrowed("")], map[]);
            && CutAt(Opened(KEYED), "id", RETYPED, 0, s) && Moved(Opened(KEYED), "id", RETYPED, 0, s)
            && !Outcome(Opened(KEYED), "id", RETYPED).1 && Outcome(Opened(s), "id", RETYPED).1
  {
    var s := D.Database(map["t" := Narrowed("")], map[]);
    RetypeNarrows();
    RetypeStep(KEYED, KEYED.tables["t"], Narrowed(""));
    RetypeStep(s, Narrowed(""), Narrowed("id"));
    NextRow("");
    NextRow("id");
    CutInRetype(s);
    hide Step, Outcome, CutAt, Moved;
    TwoEvents(Opened(KEYED), RETYPED);
    TwoEvents(Opened(s), RETYPED);
  }

  lemma CutInRetype(s: D.Database)
    requires s.tables == map["t" := Narrowed("")] && s in Apply(Opened(KEYED), "id", RETYPED[0]).states
    requires !D.Skips(KEYED, RETYPED[0])
    ensures CutAt(Opened(KEYED), "id", RETYPED, 0, s) && Moved(Opened(KEYED), "id", RETYPED, 0, s)
  {
    hide Apply, Outcome;
    assert RETYPED[..0] == [];
    OutcomeNil(Opened(KEYED), "id");
    assert Names(RETYPED[0].change.columns) == ["id"] && ["id"][0] == "id";
    assert s.tables["t"].key != KEYED.tables["t"].key;
  }

  lemma TwoEvents(p: Process, feed: seq<Event>)
    requires |feed| == 2 && Step(p, "id", feed[0]).ok
    ensures var q := End(p, Step(p, "id", feed[0])); Outcome(p, "id", feed).1 == Step(q, "id", feed[1]).ok
  {
    hide Step, Outcome;
    OutcomeNil(p, "id");
    assert feed == ([] + [feed[0]]) + [feed[1]];
    OutcomeSnoc(p, "id", [], feed[0]);
    OutcomeSnoc(p, "id", [] + [feed[0]], feed[1]);
  }

  // --- rows alone ---------------------------------------------------------------------------------

  const FIRST := Event("t", Insert(map["id" := Number("1"), "a" := Number("1")]), 5, 5, 6, None)

  /** A second row with one column more, under the given name. */
  function Wider(column: string): Event {
    Event("t", Insert(map["id" := Number("2"), "a" := Number("2"), column := Number("9")]), 8, 8, 9, None)
  }

  lemma FirstNames()
    ensures Strings.Sorted(FIRST.change.Image().Keys) == ["a", "id"]
    ensures Names(Inferred(FIRST.change.Image())) == ["a", "id"] == Names(Spelled(Inferred(FIRST.change.Image())))
  {
    Strings.SortedIs(FIRST.change.Image().Keys, ["a", "id"]);
  }

  /** The table the first row's columns make. */
  function Guessed(): Table {
    Made(Spelled(Inferred(FIRST.change.Image())), "id")
  }

  lemma GuessedIs()
    ensures Guessed().key == "id" && Names(Guessed().columns) == ["a", "id"] && Guessed().rows == map[]
    ensures Creatable(["a", "id"])
  {
    FirstNames();
    IdIsCached();
    ShortNames("a");
    ShortNames("id");
  }

  lemma FirstEnsured()
    ensures Ensure(Opened(EMPTY), "id", "t", Inferred(FIRST.change.Image()), false) ==
            Result([D.Database(map["t" := Guessed()], map[])], map["t" := ["a", "id"]], true)
  {
    FirstNames();
    GuessedIs();
    hide Inferred, Spelled, Creatable;
  }

  lemma FirstPut()
    ensures Binds(Guessed(), ["a", "id"], FIRST.change.Image())
    ensures var next := Exec(Guessed(), PutOf(Guessed(), ["a", "id"], FIRST));
            && next.columns == Guessed().columns && next.key == "id"
            && forall k :: k in next.rows ==> k == Number("1")
  {
    GuessedIs();
    IdIsCached();
    hide Guessed;
  }

  /** The process once the first row is in: its table inferred, its columns cached. */
  lemma FirstRow() returns (p: Process)
    ensures Step(Opened(EMPTY), "id", FIRST).ok && End(Opened(EMPTY), Step(Opened(EMPTY), "id", FIRST)) == p
    ensures AfterFirst(p)
  {
    FirstEnsured();
    FirstPut();
    GuessedIs();
    hide Ensure, Binds, Guessed, Inferred, PutOf, Exec, Creatable;
    var made := D.Database(map["t" := Guessed()], map[]);
    var next := D.ExecIn(made, "t", PutOf(Guessed(), ["a", "id"], FIRST));
    assert Apply(Opened(EMPTY), "id", FIRST) == Result([made, next], map["t" := ["a", "id"]], true);
    p := End(Opened(EMPTY), Step(Opened(EMPTY), "id", FIRST));
  }

  lemma ShortNames(n: string)
    requires |n| <= 2
    ensures !D.Bookkeeping(n)
  {
  }

  lemma InOrder()
    ensures Strings.LexLe("a", "id") && Strings.LexLe("id", "z") && Strings.LexLe("a", "z")
    ensures Strings.LexLe("a", "b") && Strings.LexLe("b", "id")
  {
  }

  /** The further column's place in the order: past the others, or between them. */
  function Ordered(past: bool): seq<string> {
    if past then ["a", "id", "z"] else ["a", "b", "id"]
  }

  /** A second row of the table, with such columns. */
  ghost predicate Second(e: Event, past: bool) {
    && e.table == "t" && e.change.Insert? && e.commitLsn == 8 == e.lsn
    && Strings.Sorted(e.change.Image().Keys) == Ordered(past)
    && "id" in e.change.Image() && e.change.Image()["id"] == Number("2")
  }

  lemma ZIsSecond()
    ensures Second(Wider("z"), true)
  {
    InOrder();
    hide Strings.LexLe;
    var names := ["a", "id", "z"];
    assert Wider("z").change.Image().Keys == {"id", "a", "z"};
    assert names[0] == "a" && names[1] == "id" && names[2] == "z";
    Strings.SortedIs({"id", "a", "z"}, names);
  }

  lemma BIsSecond()
    ensures Second(Wider("b"), false)
  {
    InOrder();
    hide Strings.LexLe;
    var names := ["a", "b", "id"];
    assert Wider("b").change.Image().Keys == {"id", "a", "b"};
    assert names[0] == "a" && names[1] == "b" && names[2] == "id";
    Strings.SortedIs({"id", "a", "b"}, names);
  }

  lemma SecondIsWellFormed(e: Event, past: bool)
    requires Second(e, past)
    ensures WellFormed(e)
  {
    hide D.Bookkeeping;
    forall n | n in Ordered(past)
      ensures !D.Bookkeeping(n)
    {
      ShortNames(n);
    }
  }

  /** The table as the first row made it, and the memory of the process that did. */
  ghost predicate AfterFirst(p: Process) {
    && p.columns == map["t" := ["a", "id"]] && p.db.checkpoint == map["t" := Stamp(5, 5)]
    && "t" in p.db.tables && Names(p.db.tables["t"].columns) == ["a", "id"] && p.db.tables["t"].key == "id"
    && forall k :: k in p.db.tables["t"].rows ==> k == Number("1")
  }

  lemma SecondInferred(e: Event, past: bool)
    requires Second(e, past)
    ensures Names(Spelled(Inferred(e.change.Image()))) == Ordered(past) == Bound(map[], e)
    ensures Bound(map["t" := ["a", "id"]], e) == ["a", "id"]
  {
  }

  lemma BehindZ(got: seq<ColumnSpec>, want: seq<ColumnSpec>)
    requires Names(got) == ["a", "id"] && Names(want) == Ordered(true)
    ensures Behind(got, want, false)
  {
    assert |got| == 2 && |want| == 3;
    assert forall i :: 0 <= i < 2 ==> got[i].name == Names(got)[i] == Names(want)[i] == want[i].name;
  }

  lemma NotBehindB(got: seq<ColumnSpec>, want: seq<ColumnSpec>)
    requires Names(got) == ["a", "id"] && Names(want) == Ordered(false)
    ensures !Behind(got, want, false)
  {
    assert |got| == 2 && |want| == 3;
    assert got[1].name == Names(got)[1] == "id" && want[1].name == Names(want)[1] == "b";
    assert !SameColumn(got[1], want[1], false);
  }

  /** Under the cache the first row left, the second one fits. */
  lemma FitsAfterFirst(p: Process, e: Event, past: bool)
    requires AfterFirst(p) && Second(e, past)
    ensures !Catches(p.db, p.columns, e) && Fits(p.db, p.columns, e)
  {
    hide Spelled, Inferred, Behind, Ordered;
    IdIsCached();
    SecondInferred(e, past);
  }

  lemma IdIsCached()
    ensures "id" in ["a", "id"] && "b" in Ordered(false) && "b" !in ["a", "id"]
  {
    assert ["a", "id"][1] == "id" && Ordered(false)[1] == "b";
  }

  /** Without it, a column past the others is added, and one between them does not fit. */
  lemma UnlikeAfterFirst(p: Process, e: Event, past: bool)
    requires AfterFirst(p) && Second(e, past)
    ensures past ==> Catches(p.db, map[], e)
    ensures !past ==> !Catches(p.db, map[], e) && !Fits(p.db, map[], e)
  {
    SecondInferred(e, past);
    var got, want := p.db.tables["t"].columns, Spelled(Inferred(e.change.Image()));
    hide Spelled, Inferred, Behind, Second, Ordered;
    IdIsCached();
    if past {
      BehindZ(got, want);
    } else {
      NotBehindB(got, want);
    }
  }

  /** What the two processes make of the second row. */
  lemma SecondEnds(p: Process, e: Event, past: bool)
    requires AfterFirst(p) && Second(e, past)
    ensures var q := Opened(p.db); var once, again := ApplyRow(p, "id", e), ApplyRow(q, "id", e);
            var x, y := D.Final(p.db, once.states), D.Final(q.db, again.states);
            && once.ok
            && x.tables != y.tables && (!past ==> !again.ok)
            && (past ==> "t" in y.tables && |y.tables["t"].columns| > 2)
  {
    FitsAfterFirst(p, e, past);
    UnlikeAfterFirst(p, e, past);
    SecondIsWellFormed(e, past);
    assert e.table == "t" && e.change.Insert? && e.table in p.db.tables;
    assert |p.db.tables["t"].columns| == |Names(p.db.tables["t"].columns)| == 2;
    WritesSecond(p, e, past);
    hide ApplyRow, Catches, Fits, WellFormed, Bound, AfterFirst, Second, PutOf;
    RowEnd(p, "id", e);
    if past {
      PutKeepsColumns(p.db, Bound(p.columns, e), e);
      CatchingGrows(Opened(p.db), "id", e);
    } else {
      RowEnd(Opened(p.db), "id", e);
    }
  }

  lemma WritesSecond(p: Process, e: Event, past: bool)
    requires AfterFirst(p) && Second(e, past)
    ensures D.ExecIn(p.db, "t", PutOf(p.db.tables["t"], Bound(p.columns, e), e)).tables != p.db.tables
  {
    hide Bound;
    var t := p.db.tables["t"];
    var next := Exec(t, PutOf(t, Bound(p.columns, e), e));
    assert Number("2") in next.rows && Number("2") !in t.rows;
  }

  /** ... and with its position recorded. */
  lemma SecondSteps(p: Process, e: Event, past: bool)
    requires AfterFirst(p) && Second(e, past)
    ensures var q := Opened(p.db); var once, again := Step(p, "id", e), Step(q, "id", e);
            var x, y := End(p, once).db, End(q, again).db;
            && once.ok
            && x.tables != y.tables && (!past ==> !again.ok)
            && (past ==> "t" in y.tables && |y.tables["t"].columns| > 2)
  {
    var q := Opened(p.db);
    SecondEnds(p, e, past);
    SecondIsNew(p.db, e, past);
    hide *;
    TablesOfStep(p, e);
    TablesOfStep(q, e);
  }

  /** Recording the position leaves the tables alone. */
  lemma TablesOfStep(p: Process, e: Event)
    requires e.change.IsRow() && !D.Skips(p.db, e)
    ensures Step(p, "id", e).ok == ApplyRow(p, "id", e).ok
    ensures End(p, Step(p, "id", e)).db.tables == D.Final(p.db, ApplyRow(p, "id", e).states).tables
  {
    hide ApplyRow;
  }

  lemma SecondIsNew(db: D.Database, e: Event, past: bool)
    requires db.checkpoint == map["t" := Stamp(5, 5)] && Second(e, past)
    ensures !D.Skips(db, e) && e.change.IsRow()
  {
  }

  /** A feed of two rows, and a kill between them. */
  lemma TwoRows(e: Event, past: bool)
    requires Second(e, past)
    ensures var feed := [FIRST, e];
            var s := At(Opened(EMPTY), "id", feed, 1).db;
            var once, again := Outcome(Opened(EMPTY), "id", feed), Outcome(Opened(s), "id", feed);
            && CutAt(Opened(EMPTY), "id", feed, 1, s) && once.1 && once.0.db != again.0.db
            && (!past ==> !again.1)
            && (past ==> "t" in again.0.db.tables && |again.0.db.tables["t"].columns| > 2)
  {
    var p := FirstRow();
    SkipsFirst(Opened(p.db));
    SecondSteps(p, e, past);
    hide *;
    CutBetween(Opened(EMPTY), FIRST, p, e);
  }

  /** Two events, a kill between them, and a restart that skips the first. */
  lemma CutBetween(p0: Process, first: Event, p: Process, e: Event)
    requires Step(p0, "id", first).ok && End(p0, Step(p0, "id", first)) == p
    requires Step(Opened(p.db), "id", first).ok && End(Opened(p.db), Step(Opened(p.db), "id", first)) == Opened(p.db)
    ensures var feed, q := [first, e], Opened(p.db);
            && At(p0, "id", feed, 1) == p && CutAt(p0, "id", feed, 1, p.db)
            && Outcome(p0, "id", feed) == (End(p, Step(p, "id", e)), Step(p, "id", e).ok)
            && Outcome(q, "id", feed) == (End(q, Step(q, "id", e)), Step(q, "id", e).ok)
  {
    hide Step, Outcome, Run;
    var feed, q := [first, e], Opened(p.db);
    assert feed[..1] == [] + [first] && feed == feed[..1] + [e];
    OutcomeNil(p0, "id");
    OutcomeSnoc(p0, "id", [], first);
    OutcomeSnoc(p0, "id", feed[..1], e);
    OutcomeNil(q, "id");
    OutcomeSnoc(q, "id", [], first);
    OutcomeSnoc(q, "id", feed[..1], e);
  }

  /**
   Rows alone, the second with a column the first did not have. An uninterrupted run leaves that column
   out. A restart between the two has forgotten the first row's columns: with `z` it adds the column and
   lands the value, and with `b` it stops on a column the table does not have.
   */
  lemma RestartSeesWiderRow(column: string)
    requires column == "z" || column == "b"
    ensures var feed := [FIRST, Wider(column)];
            var s := At(Opened(EMPTY), "id", feed, 1).db;
            var once, again := Outcome(Opened(EMPTY), "id", feed), Outcome(Opened(s), "id", feed);
            && CutAt(Opened(EMPTY), "id", feed, 1, s) && once.1 && once.0.db != again.0.db
            && (column == "b" ==> !again.1)
            && (column == "z" ==> "t" in again.0.db.tables && |again.0.db.tables["t"].columns| > 2)
  {
    hide *;
    if column == "z" {
      ZIsSecond();
    } else {
      BIsSecond();
    }
    TwoRows(Wider(column), column == "z");
  }

  lemma SkipsFirst(p: Process)
    requires p.db.checkpoint == map["t" := Stamp(5, 5)]
    ensures Step(p, "id", FIRST) == Result([], p.columns, true) && End(p, Step(p, "id", FIRST)) == p
  {
  }
}
