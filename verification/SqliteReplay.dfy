/**
 Whole runs of the SQLite sink. A restart has the database but not the cache, so the question is what
 the events gone over again put back into it.
 */
module SqliteReplay {
  import opened Feed
  import opened Destination
  import opened SqliteSpec
  import D = DuckSpec
  import E = Evolution
  import R = Replay
  import Strings

  type Database = D.Database

  /** A shape's column names, or an image's. */
  function NamesIn(c: Change): seq<string> {
    if c.DropTable? then [] else if c.IsRow() then Strings.Sorted(c.Image().Keys) else Names(c.columns)
  }

  /**
   An event as the source writes it: no column named twice or like a bookkeeping one, an added column in
   the shape that adds it, a position a signed column holds as it is.
   */
  predicate WellFormed(e: Event) {
    && Creatable(NamesIn(e.change))
    && (e.change.AddColumn? ==> e.change.column != "" && e.change.column in Names(e.change.columns))
    && (e.change.RenameColumn? ==>
          e.change.from != "" && e.change.to != "" && e.change.from !in Names(e.change.columns))
    && (IsColumnChange(e.change) ==> e.change.columns != [])
    && R.Storable(e)
  }

  ghost predicate AllWellFormed(feed: seq<Event>) {
    forall e :: e in feed ==> WellFormed(e)
  }

  // ---------------------------------------------------------------------------------------------
  // Runs.

  lemma OutcomeNil(p: Process, flag: string)
    ensures Outcome(p, flag, []) == (p, true)
  {
  }

  lemma OutcomeCons(p: Process, flag: string, e: Event, rest: seq<Event>)
    ensures var step := Step(p, flag, e);
            Outcome(p, flag, [e] + rest) ==
            if step.ok then Outcome(End(p, step), flag, rest) else (End(p, step), false)
  {
    hide Step;
    assert ([e] + rest)[1..] == rest;
  }

  lemma {:induction false} OutcomeSnoc(p: Process, flag: string, feed: seq<Event>, e: Event)
    ensures var soFar := Outcome(p, flag, feed);
            var step := Step(soFar.0, flag, e);
            Outcome(p, flag, feed + [e]) == if soFar.1 then (End(soFar.0, step), step.ok) else soFar
    decreases |feed|
  {
    hide Step, Outcome, End;
    if feed == [] {
      assert feed + [e] == [e] + [];
      OutcomeNil(p, flag);
      OutcomeCons(p, flag, e, []);
      OutcomeNil(End(p, Step(p, flag, e)), flag);
    } else {
      var head, rest := feed[0], feed[1..];
      OutcomeCons(p, flag, head, rest);
      OutcomeCons(p, flag, head, rest + [e]);
      assert feed == [head] + rest && feed + [e] == [head] + (rest + [e]);
      OutcomeSnoc(End(p, Step(p, flag, head)), flag, rest, e);
    }
  }

  // ---------------------------------------------------------------------------------------------
  // Cursors.

  lemma {:induction false} GrowthStates(db: Database, table: string, missing: seq<ColumnSpec>, s: Database)
    requires table in db.tables && s in Growth(db, table, missing)
    ensures s.checkpoint == db.checkpoint && s.tables.Keys == db.tables.Keys
    decreases |missing|
  {
    hide AddIfNew;
    var next := Growth(db, table, missing)[0];
    if s != next {
      GrowthStates(next, table, missing[1..], s);
    }
  }

  lemma EnsureStates(p: Process, flag: string, table: string, cols: seq<ColumnSpec>, declared: bool, s: Database)
    requires s in Ensure(p, flag, table, cols, declared).states
    ensures s.checkpoint == p.db.checkpoint && p.db.tables.Keys <= s.tables.Keys
  {
    hide Growth, Agree, SameColumn, Spelled, Creatable, Made;
    if table in p.db.tables && s != p.db {
      assert s in CatchUp(p.db, table, Spelled(cols), declared);
      var got := p.db.tables[table].columns;
      GrowthStates(p.db, table, Spelled(cols)[|got|..], s);
    }
  }

  lemma ApplyStates(p: Process, flag: string, e: Event, s: Database)
    requires s in Apply(p, flag, e).states
    ensures s.checkpoint == p.db.checkpoint
    ensures !e.change.DropTable? ==> p.db.tables.Keys <= s.tables.Keys
  {
    hide Ensure, Evolved, Binds, PutOf, Inferred;
    var cols := if e.change.DropTable? then [] else if e.change.IsRow() then Inferred(e.change.Image())
                else e.change.columns;
    var declared := !e.change.IsRow();
    var states := Ensure(p, flag, e.table, cols, declared).states;
    if s in states {
      EnsureStates(p, flag, e.table, cols, declared, s);
    }
    if states != [] {
      EnsureStates(p, flag, e.table, cols, declared, D.Final(p.db, states));
    }
  }

  lemma StepKeepsSkips(p: Process, flag: string, e: Event, s: Database, a: Event)
    requires s in Step(p, flag, e).states && !a.change.BypassesCursor() && D.Skips(p.db, a)
    ensures D.Skips(s, a)
  {
    hide Apply;
    var states := Apply(p, flag, e).states;
    if s in states {
      ApplyStates(p, flag, e, s);
    } else {
      var at := D.Final(p.db, states);
      if at in states {
        ApplyStates(p, flag, e, at);
      }
      R.SaveIsLater(at, e);
      assert !Above(D.Cursor(at, a.table), D.Cursor(s, a.table));
    }
  }

  lemma StepCovers(p: Process, flag: string, e: Event, s: Database, done: seq<Event>)
    requires E.Covers(p.db, done) && s in Step(p, flag, e).states
    ensures E.Covers(s, done)
  {
    hide Step, D.Skips;
    forall a | a in done && !a.change.BypassesCursor()
      ensures D.Skips(s, a)
    {
      StepKeepsSkips(p, flag, e, s, a);
    }
  }

  lemma CoversAfter(p: Process, flag: string, e: Event, done: seq<Event>)
    requires E.Covers(p.db, done)
    ensures E.Covers(End(p, Step(p, flag, e)).db, done)
  {
    hide Step, E.Covers;
    var states := Step(p, flag, e).states;
    if states != [] {
      StepCovers(p, flag, e, D.Final(p.db, states), done);
    }
  }

  lemma NextCovers(p: Process, flag: string, e: Event, done: seq<Event>)
    requires R.Storable(e) && E.Covers(p.db, done) && Step(p, flag, e).ok
    ensures E.Covers(End(p, Step(p, flag, e)).db, done + [e])
  {
    hide Apply, D.Skips, R.Storable;
    CoversAfter(p, flag, e, done);
    if !e.change.BypassesCursor() && !D.Skips(p.db, e) {
      var states := Apply(p, flag, e).states;
      var at := D.Final(p.db, states);
      if at in states {
        ApplyStates(p, flag, e, at);
      }
      SameSkips(p.db, at, e);
      R.SaveSkips(at, e);
    }
  }

  lemma SameSkips(db: Database, next: Database, e: Event)
    requires next.checkpoint == db.checkpoint
    ensures D.Skips(next, e) == D.Skips(db, e)
  {
  }

  // ---------------------------------------------------------------------------------------------
  // A process that keeps its cache, resuming an event killed between two of its statements.

  lemma GrowthNext(db: Database, table: string, c: ColumnSpec)
    requires table in db.tables && c.name !in Names(db.tables[table].columns) && !D.Bookkeeping(c.name)
    ensures var next := db.(tables := db.tables[table := AddIfNew(db.tables[table], c)]);
            && next.tables[table].columns == db.tables[table].columns + [c]
            && next.tables[table].key == db.tables[table].key
  {
  }

  lemma FirstIsNew(got: seq<ColumnSpec>, missing: seq<ColumnSpec>)
    requires missing != [] && Creatable(Names(got + missing))
    ensures missing[0].name !in Names(got) && !D.Bookkeeping(missing[0].name)
  {
    hide D.Bookkeeping;
    var all := Names(got + missing);
    assert all[|got|] == missing[0].name && forall k :: 0 <= k < |got| ==> all[k] == Names(got)[k];
  }

  /** The state after i + 1 statements of a catch-up has that many more columns, and the rest to go. */
  lemma {:induction false} GrowthResumes(db: Database, table: string, missing: seq<ColumnSpec>, i: nat)
    requires table in db.tables && i < |missing| && Creatable(Names(db.tables[table].columns + missing))
    ensures var states := Growth(db, table, missing);
            && states[i].tables[table].columns == db.tables[table].columns + missing[..i + 1]
            && states[i].tables[table].key == db.tables[table].key
            && Growth(states[i], table, missing[i + 1..]) == states[i + 1..]
    decreases |missing|
  {
    hide AddIfNew, Creatable;
    var got := db.tables[table].columns;
    FirstIsNew(got, missing);
    GrowthNext(db, table, missing[0]);
    var next := Growth(db, table, missing)[0];
    if i > 0 {
      assert (got + [missing[0]]) + missing[1..] == got + missing;
      GrowthResumes(next, table, missing[1..], i - 1);
      assert missing[1..][i..] == missing[i + 1..];
      assert [missing[0]] + missing[1..][..i] == missing[..i + 1];
    } else {
      assert missing[..1] == [missing[0]];
    }
  }

  lemma SpelledNames(cols: seq<ColumnSpec>, got: seq<ColumnSpec>, declared: bool)
    requires Behind(got, Spelled(cols), declared)
    ensures Names(got + Spelled(cols)[|got|..]) == Names(cols)
  {
    hide AffinityOf, SqlType;
    var all := got + Spelled(cols)[|got|..];
    forall i | 0 <= i < |cols|
      ensures Names(all)[i] == Names(cols)[i]
    {
      if i < |got| {
        assert SameColumn(got[i], Spelled(cols)[i], declared);
      }
    }
  }

  /** A table part of the way through a catch-up is still behind, until there is nothing left to add. */
  lemma StillBehind(got: seq<ColumnSpec>, want: seq<ColumnSpec>, declared: bool, m: nat)
    requires Behind(got, want, declared) && |got| <= m <= |want|
    ensures Behind(got + want[|got|..m], want, declared) <==> m < |want|
  {
    hide AffinityOf;
    var now := got + want[|got|..m];
    forall i | 0 <= i < |now|
      ensures SameColumn(now[i], want[i], declared)
    {
      if i < |got| {
        assert SameColumn(got[i], want[i], declared);
      }
    }
  }

  lemma CatchUpResumes(db: Database, table: string, cols: seq<ColumnSpec>, declared: bool, s: Database)
    requires table in db.tables && Creatable(Names(cols)) && s in CatchUp(db, table, Spelled(cols), declared)
    ensures D.Final(s, CatchUp(s, table, Spelled(cols), declared)) ==
            D.Final(db, CatchUp(db, table, Spelled(cols), declared))
  {
    hide AffinityOf, Growth, Creatable, Behind, Spelled;
    var want, got := Spelled(cols), db.tables[table].columns;
    assert |got| < |want| by { BehindIsShorter(got, want, declared); }
    var missing := want[|got|..];
    var grown := Growth(db, table, missing);
    SpelledNames(cols, got, declared);
    var i :| 0 <= i < |grown| && grown[i] == s;
    GrowthResumes(db, table, missing, i);
    assert missing[..i + 1] == want[|got|..|got| + i + 1];
    StillBehind(got, want, declared, |got| + i + 1);
    assert want[|got| + i + 1..] == missing[i + 1..];
  }

  lemma BehindIsShorter(got: seq<ColumnSpec>, want: seq<ColumnSpec>, declared: bool)
    requires Behind(got, want, declared)
    ensures |got| < |want|
  {
  }

  lemma EnsureResumes(p: Process, flag: string, table: string, cols: seq<ColumnSpec>, declared: bool, s: Database)
    requires Creatable(Names(cols)) && s in Ensure(p, flag, table, cols, declared).states
    ensures var q := Process(s, p.columns);
            var again, once := Ensure(q, flag, table, cols, declared), Ensure(p, flag, table, cols, declared);
            End(q, again) == End(p, once) && again.ok == once.ok
  {
    hide CatchUp, Agree, Spelled, Made;
    var want := Spelled(cols);
    if table !in p.db.tables {
      MadeIsCurrent(s, table, want, flag, declared);
    } else if s != p.db {
      CatchUpResumes(p.db, table, cols, declared, s);
    }
  }

  lemma MadeIsCurrent(db: Database, table: string, want: seq<ColumnSpec>, flag: string, declared: bool)
    requires table in db.tables && db.tables[table] == Made(want, flag)
    ensures CatchUp(db, table, want, declared) == [] && Agree(want, db.tables[table].columns)
  {
  }

  lemma CatchUpIsEmptyIff(db: Database, table: string, want: seq<ColumnSpec>, declared: bool)
    requires table in db.tables
    ensures CatchUp(db, table, want, declared) == [] <==> !Behind(db.tables[table].columns, want, declared)
  {
    hide SameColumn, AddIfNew;
  }

  /** Once caught up, there is nothing to catch up with. */
  lemma CaughtUp(db: Database, table: string, cols: seq<ColumnSpec>, declared: bool)
    requires table in db.tables && Creatable(Names(cols))
    ensures var at := D.Final(db, CatchUp(db, table, Spelled(cols), declared));
            table in at.tables && !Behind(at.tables[table].columns, Spelled(cols), declared)
  {
    hide AffinityOf, Growth, Creatable, Behind, Spelled;
    var want, got := Spelled(cols), db.tables[table].columns;
    CatchUpIsEmptyIff(db, table, want, declared);
    if Behind(got, want, declared) {
      BehindIsShorter(got, want, declared);
      var missing := want[|got|..];
      SpelledNames(cols, got, declared);
      GrowthResumes(db, table, missing, |missing| - 1);
      assert missing[..|missing|] == want[|got|..|want|];
      StillBehind(got, want, declared, |want|);
    }
  }

  lemma EnsuredIsCurrent(p: Process, flag: string, table: string, cols: seq<ColumnSpec>, declared: bool)
    requires Creatable(Names(cols)) && Ensure(p, flag, table, cols, declared).ok
    ensures var at := End(p, Ensure(p, flag, table, cols, declared));
            && table in at.db.tables && !Behind(at.db.tables[table].columns, Spelled(cols), declared)
            && at.columns == p.columns[table := Names(cols)]
  {
    hide Agree, CatchUp, Spelled, Creatable, AffinityOf;
    if table in p.db.tables {
      CaughtUp(p.db, table, cols, declared);
      assert D.Final(p.db, [p.db] + CatchUp(p.db, table, Spelled(cols), declared)) ==
             D.Final(p.db, CatchUp(p.db, table, Spelled(cols), declared));
    }
  }

  /** The row is held at the event's stamp or a later one. */
  ghost predicate Holds(t: Table, e: Event)
    requires e.change.IsRow()
  {
    && D.NamesRow(t, e.change.Image())
    && e.change.Image()[t.key] in t.rows && !Above(D.StampOf(e), t.rows[e.change.Image()[t.key]].stamp)
  }

  /** A statement for a row already held changes nothing, whatever it binds. */
  lemma HeldIsStill(db: Database, cached: seq<string>, e: Event)
    requires e.change.IsRow() && e.table in db.tables && Holds(db.tables[e.table], e)
    ensures D.ExecIn(db, e.table, PutOf(db.tables[e.table], cached, e)) == db
  {
    var t := db.tables[e.table];
    assert Exec(t, PutOf(t, cached, e)) == t;
  }

  lemma PutHolds(db: Database, cached: seq<string>, e: Event)
    requires e.change.IsRow() && e.table in db.tables && Binds(db.tables[e.table], cached, e.change.Image())
    ensures var next := D.ExecIn(db, e.table, PutOf(db.tables[e.table], cached, e));
            && Holds(next.tables[e.table], e) && next.checkpoint == db.checkpoint
            && next.tables[e.table].columns == db.tables[e.table].columns
            && Binds(next.tables[e.table], cached, e.change.Image())
  {
  }

  /** The process a row's columns are settled in: the table cached, or created, or found. */
  function Settled(p: Process, flag: string, e: Event): Result
    requires e.change.IsRow()
  {
    if e.table in p.columns then Result([], p.columns, true)
    else Ensure(p, flag, e.table, Inferred(e.change.Image()), false)
  }

  /** The write, once the columns are settled. */
  function Written(p: Process, settled: Result, e: Event): Database
    requires e.change.IsRow() && e.table in settled.columns && e.table in D.Final(p.db, settled.states).tables
    requires D.Final(p.db, settled.states).tables[e.table].key in e.change.Image()
  {
    var at := D.Final(p.db, settled.states);
    D.ExecIn(at, e.table, PutOf(at.tables[e.table], settled.columns[e.table], e))
  }

  lemma RowSplits(p: Process, flag: string, e: Event)
    requires e.change.IsRow()
    ensures var r, settled := ApplyRow(p, flag, e), Settled(p, flag, e); var at := D.Final(p.db, settled.states);
            && r.columns == settled.columns
            && (r.ok ==>
                 && settled.ok && e.table in settled.columns && e.table in at.tables
                 && at.tables[e.table].key != "" && D.NamesRow(at.tables[e.table], e.change.Image())
                 && Binds(at.tables[e.table], settled.columns[e.table], e.change.Image())
                 && r.states == settled.states + [Written(p, settled, e)])
            && (!r.ok ==> r.states == settled.states)
  {
    hide Ensure, Inferred, PutOf;
  }

  lemma RowResumes(p: Process, flag: string, e: Event, s: Database)
    requires e.change.IsRow() && WellFormed(e) && s in ApplyRow(p, flag, e).states
    ensures var q := Process(s, p.columns);
            && End(q, ApplyRow(q, flag, e)) == End(p, ApplyRow(p, flag, e))
            && ApplyRow(q, flag, e).ok == ApplyRow(p, flag, e).ok
  {
    RowSplits(p, flag, e);
    var settled := Settled(p, flag, e);
    if s in settled.states {
      SettlingResumes(p, flag, e, s);
    } else {
      hide ApplyRow, Settled;
      WrittenResumes(p, flag, e);
    }
  }

  /** Killed while its columns were being settled. */
  lemma SettlingResumes(p: Process, flag: string, e: Event, s: Database)
    requires e.change.IsRow() && WellFormed(e) && s in Settled(p, flag, e).states
    ensures var q := Process(s, p.columns);
            && End(q, ApplyRow(q, flag, e)) == End(p, ApplyRow(p, flag, e))
            && ApplyRow(q, flag, e).ok == ApplyRow(p, flag, e).ok
  {
    var cols := Inferred(e.change.Image());
    assert Creatable(Names(cols));
    hide Ensure, Binds, PutOf, Inferred, WellFormed, Creatable, Exec, D.StampOf;
    EnsureResumes(p, flag, e.table, cols, false, s);
  }

  /** ... once its row is written. */
  lemma WrittenResumes(p: Process, flag: string, e: Event)
    requires e.change.IsRow() && WellFormed(e) && ApplyRow(p, flag, e).ok
    ensures var end := End(p, ApplyRow(p, flag, e));
            var q := Process(end.db, p.columns);
            End(q, ApplyRow(q, flag, e)) == end && ApplyRow(q, flag, e).ok
  {
    hide ApplyRow, WellFormed;
    RowSplits(p, flag, e);
    var settled := Settled(p, flag, e);
    var at, s := D.Final(p.db, settled.states), Written(p, settled, e);
    PutHolds(at, settled.columns[e.table], e);
    SettledAgain(p, flag, e, s);
    HeldIsStill(s, settled.columns[e.table], e);
    StillWritten(Process(s, p.columns), flag, e, settled.columns);
  }

  /** With the columns settled and the row held, applying the event again changes nothing. */
  lemma StillWritten(q: Process, flag: string, e: Event, columns: Cache)
    requires e.change.IsRow() && D.Final(q.db, Settled(q, flag, e).states) == q.db
    requires Settled(q, flag, e).ok && Settled(q, flag, e).columns == columns
    requires e.table in columns && e.table in q.db.tables
    requires Binds(q.db.tables[e.table], columns[e.table], e.change.Image())
    requires D.ExecIn(q.db, e.table, PutOf(q.db.tables[e.table], columns[e.table], e)) == q.db
    ensures End(q, ApplyRow(q, flag, e)) == Process(q.db, columns) && ApplyRow(q, flag, e).ok
  {
    hide Ensure, Inferred, PutOf, Binds;
  }

  lemma SettledAgain(p: Process, flag: string, e: Event, s: Database)
    requires e.change.IsRow() && WellFormed(e) && Settled(p, flag, e).ok
    requires var at := End(p, Settled(p, flag, e)).db;
             && e.table in at.tables && e.table in s.tables
             && s.tables[e.table].columns == at.tables[e.table].columns
    ensures var q := Process(s, p.columns); var again := Settled(q, flag, e);
            again.ok && again.columns == Settled(p, flag, e).columns && D.Final(s, again.states) == s
  {
    var cols := Inferred(e.change.Image());
    assert Creatable(Names(cols));
    hide Ensure, Inferred, WellFormed, Behind, Creatable;
    if e.table !in p.columns {
      EnsuredIsCurrent(p, flag, e.table, cols, false);
      EnsureAgain(Process(s, p.columns), flag, e.table, cols);
    }
  }

  lemma EnsureAgain(p: Process, flag: string, table: string, cols: seq<ColumnSpec>)
    requires table in p.db.tables && !Behind(p.db.tables[table].columns, Spelled(cols), false)
    ensures Ensure(p, flag, table, cols, false) == Result([p.db], p.columns[table := Names(cols)], true)
  {
    hide Behind, Growth;
  }

  /** A retype whose shape leaves out the key column but names the flag's moves the key when it is repeated. */
  predicate MovesKey(db: Database, flag: string, e: Event) {
    && e.change.AlterColumnType? && e.table in db.tables && db.tables[e.table].key != "" && flag != ""
    && db.tables[e.table].key !in Names(e.change.columns) && flag in Names(e.change.columns)
  }

  lemma RebuildAgain(t: Table, flag: string, cols: seq<ColumnSpec>)
    requires MayRebuild(t, cols)
    ensures var u := RebuiltTable(t, flag, cols);
            && MayRebuild(u, cols)
            && (RebuiltTable(u, flag, cols) == u <==>
                t.key == "" || flag == "" || t.key in Names(cols) || flag !in Names(cols))
  {
    var u := RebuiltTable(t, flag, cols);
    var v := RebuiltTable(u, flag, cols);
    assert v.columns == u.columns;
    forall k | k in u.rows
      ensures v.rows[k] == u.rows[k]
    {
      var r := t.rows[k];
      assert Rebuilt(Rebuilt(r, Names(cols)), Names(cols)).cells == Rebuilt(r, Names(cols)).cells;
    }
    assert v.rows == u.rows;
    assert u.key == if KeyName(t, flag) in Names(cols) then KeyName(t, flag) else "";
    assert v.key == if KeyName(u, flag) in Names(cols) then KeyName(u, flag) else "";
  }

  /** The change a statement made is found made. */
  lemma EvolvedAgain(t: Table, flag: string, c: Change)
    requires IsColumnChange(c) && Evolved(t, flag, c).Some?
    requires c.AlterColumnType? && t.key != "" && flag != "" ==> t.key in Names(c.columns) || flag !in Names(c.columns)
    ensures Evolved(Evolved(t, flag, c).value, flag, c) == Evolved(t, flag, c)
  {
    var u := Evolved(t, flag, c).value;
    match c {
      case AddColumn(_, name) =>
        if name !in Names(t.columns) && !D.Bookkeeping(name) {
          assert u.columns[|t.columns|].name == name && Names(u.columns)[|t.columns|] == name;
        }
      case RenameColumn(_, from, to) =>
        if from in Names(t.columns) {
          assert forall i :: 0 <= i < |t.columns| ==>
            Names(u.columns)[i] == if Names(t.columns)[i] == from then to else Names(t.columns)[i];
          assert from !in Names(u.columns);
        }
      case AlterColumnType(cols, _, _, _) =>
        RebuildAgain(t, flag, cols);
    }
  }

  lemma {:induction false} LastTypeExists(columns: seq<ColumnSpec>, name: string)
    requires name in Names(columns)
    ensures LastTypeIn(columns, name).Some?
    decreases |columns|
  {
    var i :| 0 <= i < |columns| && Names(columns)[i] == name;
    if columns[|columns| - 1].name != name {
      assert Names(columns[..|columns| - 1])[i] == name;
      LastTypeExists(columns[..|columns| - 1], name);
    }
  }

  /** A table made from the shape a change carries already has the change. */
  lemma ShapeHasChange(flag: string, c: Change)
    requires IsColumnChange(c) && Creatable(Names(c.columns)) && c.columns != []
    requires c.AddColumn? ==> c.column != "" && c.column in Names(c.columns)
    requires c.RenameColumn? ==> c.from != "" && c.to != "" && c.from !in Names(c.columns)
    ensures var u := Made(Spelled(c.columns), flag); Evolved(u, flag, c) == Some(u)
  {
    var u := Made(Spelled(c.columns), flag);
    match c {
      case AddColumn(cols, name) => LastTypeExists(Spelled(cols), name);
      case RenameColumn(_, _, _) =>
      case AlterColumnType(cols, _, _, _) =>
        assert MayRebuild(u, cols);
        assert RebuiltTable(u, flag, cols).rows == map[];
    }
  }

  /** After a retype the one destination's table has no primary key, and the other's is keyed by the flag. */
  ghost predicate KeyMoved(db: Database, once: Database, again: Database, flag: string, e: Event) {
    && e.table in db.tables && e.table in once.tables && e.table in again.tables
    && db.tables[e.table].key != "" == once.tables[e.table].key && again.tables[e.table].key == flag != ""
  }

  lemma KeyMoves(t: Table, flag: string, c: Change)
    requires c.AlterColumnType? && Evolved(t, flag, c).Some?
    requires t.key != "" && flag != "" && t.key !in Names(c.columns) && flag in Names(c.columns)
    ensures var u := Evolved(t, flag, c).value;
            u.key == "" && Evolved(u, flag, c).Some? && Evolved(u, flag, c).value.key == flag
  {
    RebuildAgain(t, flag, c.columns);
  }

  lemma SchemaResumes(p: Process, flag: string, e: Event, s: Database)
    requires IsColumnChange(e.change) && WellFormed(e) && s in ApplySchema(p, flag, e).states
    ensures var q := Process(s, p.columns); var again, once := ApplySchema(q, flag, e), ApplySchema(p, flag, e);
            && again.ok == once.ok
            && (End(q, again) == End(p, once) <==> !MovesKey(p.db, flag, e))
            && (MovesKey(p.db, flag, e) ==>
                 KeyMoved(p.db, D.Final(p.db, once.states), D.Final(s, again.states), flag, e))
  {
    var q := Process(s, p.columns);
    hide Evolved, Creatable, Spelled;
    if MovesKey(p.db, flag, e) {
      KeyMoves(p.db.tables[e.table], flag, e.change);
    } else if e.table in p.db.tables {
      EvolvedAgain(p.db.tables[e.table], flag, e.change);
      assert s.(tables := s.tables[e.table := s.tables[e.table]]) == s;
    } else {
      ShapeHasChange(flag, e.change);
      assert s.(tables := s.tables[e.table := s.tables[e.table]]) == s;
      assert Names(Spelled(e.change.columns)) == Names(e.change.columns);
    }
  }

  /**
   Running a killed event again with the same cache succeeds or fails as it did, and reaches the same
   process exactly when it is not a retype that moves the key.
   */
  lemma ApplyResumes(p: Process, flag: string, e: Event, s: Database)
    requires WellFormed(e) && s in Apply(p, flag, e).states
    ensures var q := Process(s, p.columns); var again, once := Apply(q, flag, e), Apply(p, flag, e);
            && again.ok == once.ok
            && (End(q, again) == End(p, once) <==> !MovesKey(p.db, flag, e))
            && (MovesKey(p.db, flag, e) ==>
                 KeyMoved(p.db, D.Final(p.db, once.states), D.Final(s, again.states), flag, e))
  {
    if e.change.DropTable? {
      assert s.tables - {e.table} == s.tables;
    } else if e.change.CreateTable? {
      EnsureResumes(p, flag, e.table, e.change.columns, true, s);
    } else if e.change.IsRow() {
      hide ApplyRow;
      RowResumes(p, flag, e, s);
    } else {
      hide ApplySchema;
      SchemaResumes(p, flag, e, s);
    }
  }

  lemma StepResumes(p: Process, flag: string, e: Event, s: Database)
    requires WellFormed(e) && !D.Skips(p.db, e) && s in Apply(p, flag, e).states
    ensures var q := Process(s, p.columns); var again, once := Step(q, flag, e), Step(p, flag, e);
            && again.ok == once.ok
            && (End(q, again) == End(p, once) <==> !MovesKey(p.db, flag, e))
            && (MovesKey(p.db, flag, e) ==> KeyMoved(p.db, End(p, once).db, End(q, again).db, flag, e))
  {
    ApplyStates(p, flag, e, s);
    SameSkips(p.db, s, e);
    ApplyResumes(p, flag, e, s);
    TablesAfter(p, flag, e);
    TablesAfter(Process(s, p.columns), flag, e);
    hide Apply, WellFormed, D.SaveCursor, D.Skips, MovesKey;
  }

  /** Recording the position leaves the tables alone. */
  lemma TablesAfter(p: Process, flag: string, e: Event)
    requires !D.Skips(p.db, e)
    ensures End(p, Step(p, flag, e)).db.tables == D.Final(p.db, Apply(p, flag, e).states).tables
  {
    hide Apply, D.Skips;
  }

  // ---------------------------------------------------------------------------------------------
  // Going over events already taken in.

  /** The columns a row event's statement will bind. */
  function Bound(columns: Cache, e: Event): seq<string>
    requires e.change.IsRow()
  {
    if e.table in columns then columns[e.table] else Strings.Sorted(e.change.Image().Keys)
  }

  /** The cache once an event has been gone over: a streamed one is skipped and puts nothing into it. */
  function Recall(columns: Cache, e: Event): Cache {
    match e.change
    case CreateTable(cols) => columns[e.table := Names(cols)]
    case DropTable => columns - {e.table}
    case Read(_) => columns[e.table := Bound(columns, e)]
    case _ => columns
  }

  function Recalled(columns: Cache, done: seq<Event>): Cache
    decreases |done|
  {
    if done == [] then columns else Recalled(Recall(columns, done[0]), done[1..])
  }

  /** The row's own columns would add to a table the process has not cached. */
  ghost predicate Catches(db: Database, columns: Cache, e: Event)
    requires e.change.IsRow() && e.table in db.tables
  {
    e.table !in columns && Behind(db.tables[e.table].columns, Spelled(Inferred(e.change.Image())), false)
  }

  /**
   A declaration the destination is not behind and agrees with; a snapshot row whose columns fit and
   whose key is held at a stamp at least as new; a dropped table that is gone.
   */
  ghost predicate Describes(db: Database, columns: Cache, e: Event) {
    if e.change.DropTable? then e.table !in db.tables
    else
      && e.table in db.tables
      && var t := db.tables[e.table];
         && (e.change.CreateTable? ==>
               !Behind(t.columns, Spelled(e.change.columns), true) && Agree(Spelled(e.change.columns), t.columns))
         && (e.change.Read? ==>
               !Catches(db, columns, e) && Binds(t, Bound(columns, e), e.change.Image()) && Holds(t, e))
  }

  /** Every declaration, drop and snapshot row among them still describes the destination. */
  ghost predicate Stands(db: Database, columns: Cache, done: seq<Event>)
    decreases |done|
  {
    done != [] ==>
      && (done[0].change.BypassesCursor() ==> Describes(db, columns, done[0]))
      && Stands(db, Recall(columns, done[0]), done[1..])
  }

  lemma TakenIsStill(p: Process, flag: string, e: Event)
    requires e.change.BypassesCursor() ==> Describes(p.db, p.columns, e)
    requires !e.change.BypassesCursor() ==> D.Skips(p.db, e)
    ensures var step := Step(p, flag, e);
            && step.ok && step.columns == Recall(p.columns, e) && D.Final(p.db, step.states) == p.db
            && forall s :: s in step.states ==> s == p.db
  {
    hide Behind, Growth, Agree, Spelled;
    if e.change.Read? {
      hide Inferred, Binds, PutOf;
      HeldIsStill(p.db, Bound(p.columns, e), e);
      if e.table !in p.columns {
        EnsureAgain(p, flag, e.table, Inferred(e.change.Image()));
      } else {
        assert p.columns[e.table := p.columns[e.table]] == p.columns;
      }
    } else if e.change.DropTable? {
      assert p.db.tables - {e.table} == p.db.tables;
    }
  }

  lemma {:induction false} StandingIsStill(p: Process, flag: string, done: seq<Event>, rest: seq<Event>)
    requires E.Covers(p.db, done) && Stands(p.db, p.columns, done)
    ensures Outcome(p, flag, done + rest) == Outcome(Process(p.db, Recalled(p.columns, done)), flag, rest)
    decreases |done|
  {
    hide Step, Run, Outcome, D.Skips, Describes, Recall;
    if done == [] {
      assert done + rest == rest;
    } else {
      var e := done[0];
      TakenIsStill(p, flag, e);
      assert End(p, Step(p, flag, e)) == Process(p.db, Recall(p.columns, e));
      StandingIsStill(Process(p.db, Recall(p.columns, e)), flag, done[1..], rest);
      OutcomeCons(p, flag, e, done[1..] + rest);
      assert done + rest == [e] + (done[1..] + rest);
    }
  }

  lemma AddGrows(db: Database, table: string, c: ColumnSpec)
    requires table in db.tables
    ensures E.Grown(db, db.(tables := db.tables[table := AddIfNew(db.tables[table], c)]))
  {
    hide R.Later;
    R.LaterReflexive(db);
    if AddIfNew(db.tables[table], c) == db.tables[table] {
      assert db.(tables := db.tables[table := db.tables[table]]) == db;
    } else {
      R.ExecIsLater(db, table, Add(c));
    }
  }

  lemma {:induction false} GrowthGrows(db: Database, table: string, missing: seq<ColumnSpec>)
    requires table in db.tables
    ensures E.Grown(db, D.Final(db, Growth(db, table, missing)))
    decreases |missing|
  {
    hide E.Grown, AddIfNew;
    if missing == [] {
      E.GrownReflexive(db);
    } else {
      var next := Growth(db, table, missing)[0];
      AddGrows(db, table, missing[0]);
      GrowthGrows(next, table, missing[1..]);
      E.GrownTransitive(db, next, D.Final(next, Growth(next, table, missing[1..])));
    }
  }

  lemma EnsureGrows(p: Process, flag: string, table: string, cols: seq<ColumnSpec>, declared: bool)
    ensures E.Grown(p.db, D.Final(p.db, Ensure(p, flag, table, cols, declared).states))
  {
    hide Growth, Behind, Agree, Spelled, Creatable;
    E.GrownReflexive(p.db);
    if table in p.db.tables {
      var want, got := Spelled(cols), p.db.tables[table].columns;
      if Behind(got, want, declared) {
        BehindIsShorter(got, want, declared);
        GrowthGrows(p.db, table, want[|got|..]);
      }
    }
  }

  lemma PutGrows(db: Database, cached: seq<string>, e: Event)
    requires e.change.IsRow() && e.table in db.tables && D.NamesRow(db.tables[e.table], e.change.Image())
    ensures E.Grown(db, D.ExecIn(db, e.table, PutOf(db.tables[e.table], cached, e)))
  {
    hide R.Later;
    R.ExecIsLater(db, e.table, PutOf(db.tables[e.table], cached, e));
  }

  lemma BypassGrows(p: Process, flag: string, e: Event)
    requires e.change.Read? || e.change.CreateTable?
    ensures E.Grown(p.db, End(p, Step(p, flag, e)).db)
  {
    hide Ensure, Inferred, PutOf, E.Grown;
    if e.change.CreateTable? {
      EnsureGrows(p, flag, e.table, e.change.columns, true);
    } else {
      var cols := Inferred(e.change.Image());
      var ensured := if e.table in p.columns then Result([], p.columns, true)
                     else Ensure(p, flag, e.table, cols, false);
      E.GrownReflexive(p.db);
      EnsureGrows(p, flag, e.table, cols, false);
      var at := D.Final(p.db, ensured.states);
      if ApplyRow(p, flag, e).ok {
        var cached := ensured.columns[e.table];
        PutGrows(at, cached, e);
        E.GrownTransitive(p.db, at, D.ExecIn(at, e.table, PutOf(at.tables[e.table], cached, e)));
      }
    }
  }

  /** A catch-up that happens leaves the table with more columns than it had. */
  lemma CatchUpAdds(db: Database, table: string, cols: seq<ColumnSpec>, declared: bool)
    requires table in db.tables && Creatable(Names(cols)) && Behind(db.tables[table].columns, Spelled(cols), declared)
    ensures var at := D.Final(db, CatchUp(db, table, Spelled(cols), declared));
            table in at.tables && |at.tables[table].columns| == |cols| > |db.tables[table].columns|
  {
    hide AffinityOf, Growth, Creatable, Behind, Spelled;
    var want, got := Spelled(cols), db.tables[table].columns;
    BehindIsShorter(got, want, declared);
    var missing := want[|got|..];
    SpelledNames(cols, got, declared);
    GrowthResumes(db, table, missing, |missing| - 1);
  }

  /** An ensured table is new, longer, or as it was. */
  lemma EnsureMoves(p: Process, flag: string, table: string, cols: seq<ColumnSpec>, declared: bool)
    requires Creatable(Names(cols)) && Ensure(p, flag, table, cols, declared).ok
    requires table !in p.db.tables || Behind(p.db.tables[table].columns, Spelled(cols), declared)
    ensures var at := D.Final(p.db, Ensure(p, flag, table, cols, declared).states);
            && table in at.tables
            && (table in p.db.tables ==> |at.tables[table].columns| > |p.db.tables[table].columns|)
  {
    hide CatchUp, Agree, Spelled, Behind, Creatable;
    if table in p.db.tables {
      CatchUpAdds(p.db, table, cols, declared);
    }
  }

  lemma PutAcceptedMoves(db: Database, cached: seq<string>, e: Event)
    requires e.change.IsRow() && e.table in db.tables && D.NamesRow(db.tables[e.table], e.change.Image())
    requires !Holds(db.tables[e.table], e)
    ensures !E.Grown(D.ExecIn(db, e.table, PutOf(db.tables[e.table], cached, e)), db)
  {
    var next := D.ExecIn(db, e.table, PutOf(db.tables[e.table], cached, e));
    var k := e.change.Image()[db.tables[e.table].key];
    assert k in next.tables[e.table].rows;
    assert !R.LaterTable(next.tables[e.table], db.tables[e.table]);
  }

  /** A declaration or snapshot row that no longer fits, and is not refused, changes what it meets. */
  lemma MisfitMoves(p: Process, flag: string, e: Event)
    requires (e.change.Read? || e.change.CreateTable?) && WellFormed(e)
    requires !Describes(p.db, p.columns, e) && Step(p, flag, e).ok
    ensures !E.Grown(End(p, Step(p, flag, e)).db, p.db)
  {
    var at := End(p, Step(p, flag, e)).db;
    if e.change.CreateTable? {
      hide CatchUp, Agree, Spelled, Behind, Creatable;
      if e.table !in p.db.tables || Behind(p.db.tables[e.table].columns, Spelled(e.change.columns), true) {
        EnsureMoves(p, flag, e.table, e.change.columns, true);
      } else {
        CatchUpIsEmptyIff(p.db, e.table, Spelled(e.change.columns), true);
      }
    } else {
      ReadMisfitMoves(p, flag, e);
    }
  }

  lemma ReadMisfitMoves(p: Process, flag: string, e: Event)
    requires e.change.Read? && WellFormed(e) && !Describes(p.db, p.columns, e) && ApplyRow(p, flag, e).ok
    ensures !E.Grown(D.Final(p.db, ApplyRow(p, flag, e).states), p.db)
  {
    hide ApplyRow, WellFormed, Behind, Spelled, Inferred, Binds, Holds, E.Grown;
    if e.table !in p.db.tables {
      NewTableMoves(p, flag, e);
    } else if Catches(p.db, p.columns, e) {
      CatchingGrows(p, flag, e);
      LongerIsNotBefore(p.db, D.Final(p.db, ApplyRow(p, flag, e).states), e.table);
    } else {
      RowEnd(p, flag, e);
      FitsNames(p.db, p.columns, e);
      PutAcceptedMoves(p.db, Bound(p.columns, e), e);
    }
  }

  lemma NewTableMoves(p: Process, flag: string, e: Event)
    requires e.change.IsRow() && e.table !in p.db.tables && ApplyRow(p, flag, e).ok
    ensures !E.Grown(D.Final(p.db, ApplyRow(p, flag, e).states), p.db)
  {
    hide Ensure, PutOf, Inferred, Binds;
    assert e.table in D.Final(p.db, ApplyRow(p, flag, e).states).tables;
  }

  lemma LongerIsNotBefore(db: Database, next: Database, table: string)
    requires table in db.tables && table in next.tables && |next.tables[table].columns| > |db.tables[table].columns|
    ensures !E.Grown(next, db)
  {
  }

  lemma {:induction false} RedeliveryGrows(p: Process, flag: string, done: seq<Event>)
    requires E.NoDrops(done) && E.Covers(p.db, done)
    ensures E.Grown(p.db, Outcome(p, flag, done).0.db)
    decreases |done|
  {
    hide Step, Run, Outcome, D.Skips, E.Grown;
    if done == [] {
      OutcomeNil(p, flag);
      E.GrownReflexive(p.db);
    } else {
      var e, rest := done[0], done[1..];
      assert done == [e] + rest;
      OutcomeCons(p, flag, e, rest);
      var q := End(p, Step(p, flag, e));
      StepGrows(p, flag, e);
      CoversAfter(p, flag, e, rest);
      RedeliveryGrows(q, flag, rest);
      E.GrownTransitive(p.db, q.db, Outcome(q, flag, rest).0.db);
    }
  }

  lemma StepGrows(p: Process, flag: string, e: Event)
    requires !e.change.DropTable? && E.Covers(p.db, [e])
    ensures E.Grown(p.db, End(p, Step(p, flag, e)).db)
  {
    assert e in [e];
    if e.change.BypassesCursor() {
      BypassGrows(p, flag, e);
    } else {
      E.GrownReflexive(p.db);
    }
  }

  /**
   Going over events a destination has taken in, drops aside, succeeds and leaves the database as it is
   exactly when each declaration and snapshot row still describes it, given the cache those before put back.
   */
  lemma {:induction false} RedeliveryIsNoOpIff(p: Process, flag: string, done: seq<Event>)
    requires AllWellFormed(done) && E.NoDrops(done) && E.Covers(p.db, done)
    ensures Outcome(p, flag, done).0.db == p.db && Outcome(p, flag, done).1 <==> Stands(p.db, p.columns, done)
    decreases |done|
  {
    hide Step, Run, Outcome, D.Skips, Describes, Recall, WellFormed, E.Grown;
    if done == [] {
      OutcomeNil(p, flag);
    } else {
      var e, rest := done[0], done[1..];
      assert done == [e] + rest;
      OutcomeCons(p, flag, e, rest);
      var q := End(p, Step(p, flag, e));
      if e.change.BypassesCursor() && !Describes(p.db, p.columns, e) {
        if Step(p, flag, e).ok {
          E.MisfitKind(e);
          MisfitMoves(p, flag, e);
          CoversAfter(p, flag, e, rest);
          RedeliveryGrows(q, flag, rest);
        }
      } else {
        TakenIsStill(p, flag, e);
        RedeliveryIsNoOpIff(q, flag, rest);
      }
    }
  }

  // ---------------------------------------------------------------------------------------------
  // Two processes over one database, with different caches.

  /** A process has cached nothing of a table that is not there. */
  ghost predicate Cached(p: Process) {
    forall t :: t in p.columns ==> t in p.db.tables
  }

  /**
   The next event does the same under either cache: it adds the same columns, it is refused by both or
   neither, and where it writes, every column that only one of them binds already holds the image's value.
   */
  ghost predicate Alike(db: Database, a: Cache, b: Cache, e: Event) {
    e.change.IsRow() && !D.Skips(db, e) && e.table in db.tables ==>
      && (Catches(db, a, e) <==> Catches(db, b, e))
      && (!Catches(db, a, e) ==>
            && (Fits(db, a, e) <==> Fits(db, b, e))
            && (Fits(db, a, e) && !Holds(db.tables[e.table], e) ==> NothingBetween(db, a, b, e)))
  }

  ghost predicate Fits(db: Database, columns: Cache, e: Event)
    requires e.change.IsRow() && e.table in db.tables
  {
    Binds(db.tables[e.table], Bound(columns, e), e.change.Image())
  }

  ghost predicate NothingBetween(db: Database, a: Cache, b: Cache, e: Event)
    requires e.change.IsRow() && e.table in db.tables && db.tables[e.table].key in e.change.Image()
  {
    var t, row := db.tables[e.table], e.change.Image();
    forall c :: c in Names(t.columns) && (c in Bound(a, e)) != (c in Bound(b, e)) ==>
      Imaged(row, c) == Held(t, row[t.key], c)
  }

  /** What a row event does when its table is there and nothing is added to it. */
  lemma RowEnd(p: Process, flag: string, e: Event)
    requires e.change.IsRow() && e.table in p.db.tables && !Catches(p.db, p.columns, e)
    ensures var r := ApplyRow(p, flag, e);
            && (r.ok <==> Fits(p.db, p.columns, e))
            && D.Final(p.db, r.states) ==
               (if r.ok then D.ExecIn(p.db, e.table, PutOf(p.db.tables[e.table], Bound(p.columns, e), e)) else p.db)
            && r.columns == p.columns[e.table := Bound(p.columns, e)]
  {
    hide Inferred, Binds, PutOf, Behind, Spelled;
    if e.table !in p.columns {
      EnsureAgain(p, flag, e.table, Inferred(e.change.Image()));
    } else {
      assert p.columns[e.table := p.columns[e.table]] == p.columns;
    }
  }

  lemma CatchingGrows(p: Process, flag: string, e: Event)
    requires e.change.IsRow() && WellFormed(e) && e.table in p.db.tables && Catches(p.db, p.columns, e)
    ensures var at := D.Final(p.db, ApplyRow(p, flag, e).states);
            e.table in at.tables && |at.tables[e.table].columns| > |p.db.tables[e.table].columns|
  {
    var cols := Inferred(e.change.Image());
    assert Creatable(Names(cols));
    hide Inferred, Spelled, Behind, Creatable, WellFormed, CatchUp, PutOf, Exec, Binds;
    assert Ensure(p, flag, e.table, cols, false).ok;
    EnsureMoves(p, flag, e.table, cols, false);
    RowSplits(p, flag, e);
    hide Ensure, ApplyRow;
    var settled := Settled(p, flag, e);
    if ApplyRow(p, flag, e).ok {
      PutKeepsColumns(D.Final(p.db, settled.states), settled.columns[e.table], e);
    }
  }

  lemma PutCells(db: Database, cached: seq<string>, e: Event)
    requires e.change.IsRow() && e.table in db.tables && D.NamesRow(db.tables[e.table], e.change.Image())
    requires !Holds(db.tables[e.table], e)
    ensures var put := PutOf(db.tables[e.table], cached, e); D.ExecIn(db, e.table, put) == WithRow(db, e, put.cells)
  {
  }

  lemma CellsSameIff(t: Table, a: seq<string>, b: seq<string>, e: Event)
    requires e.change.IsRow() && t.key in e.change.Image()
    ensures var row := e.change.Image();
            PutOf(t, a, e).cells == PutOf(t, b, e).cells <==>
            forall c :: c in Names(t.columns) && (c in a) != (c in b) ==> Imaged(row, c) == Held(t, row[t.key], c)
  {
    hide Imaged, Held;
    var x, y := PutOf(t, a, e).cells, PutOf(t, b, e).cells;
    assert x.Keys == y.Keys;
    if x == y {
      forall c | c in Names(t.columns) && (c in a) != (c in b)
        ensures Imaged(e.change.Image(), c) == Held(t, e.change.Image()[t.key], c)
      {
        assert x[c] == y[c];
      }
    }
  }

  lemma PutSameIff(db: Database, a: Cache, b: Cache, e: Event)
    requires e.change.IsRow() && e.table in db.tables && D.NamesRow(db.tables[e.table], e.change.Image())
    ensures var t := db.tables[e.table];
            D.ExecIn(db, e.table, PutOf(t, Bound(a, e), e)) == D.ExecIn(db, e.table, PutOf(t, Bound(b, e), e)) <==>
            Holds(t, e) || NothingBetween(db, a, b, e)
  {
    hide Exec, Imaged, Held, Bound, Holds;
    var t := db.tables[e.table];
    CellsSameIff(t, Bound(a, e), Bound(b, e), e);
    if Holds(t, e) {
      HeldIsStill(db, Bound(a, e), e);
      HeldIsStill(db, Bound(b, e), e);
    } else {
      PutCells(db, Bound(a, e), e);
      PutCells(db, Bound(b, e), e);
      RowTells(db, e, PutOf(t, Bound(a, e), e).cells, PutOf(t, Bound(b, e), e).cells);
    }
  }

  /** A database with one row of one table replaced. */
  function WithRow(db: Database, e: Event, cells: Row): Database
    requires e.change.IsRow() && e.table in db.tables && db.tables[e.table].key in e.change.Image()
  {
    var t := db.tables[e.table];
    var r := DestRow(cells, D.StampOf(e), e.change.Delete?, e.writer, false);
    db.(tables := db.tables[e.table := t.(rows := t.rows[e.change.Image()[t.key] := r])])
  }

  lemma RowTells(db: Database, e: Event, x: Row, y: Row)
    requires e.change.IsRow() && e.table in db.tables && db.tables[e.table].key in e.change.Image()
    ensures WithRow(db, e, x) == WithRow(db, e, y) <==> x == y
  {
    var k := e.change.Image()[db.tables[e.table].key];
    assert WithRow(db, e, x).tables[e.table].rows[k].cells == x;
    assert WithRow(db, e, y).tables[e.table].rows[k].cells == y;
  }

  /** The database and verdict of one event, and whether two processes share them. */
  ghost predicate SameEnd(p: Process, r: Result, q: Process, s: Result) {
    D.Final(p.db, r.states) == D.Final(q.db, s.states) && r.ok == s.ok
  }

  lemma RowAlikeIff(db: Database, a: Cache, b: Cache, flag: string, e: Event)
    requires e.change.IsRow() && WellFormed(e) && !D.Skips(db, e)
    requires Cached(Process(db, a)) && Cached(Process(db, b))
    ensures var p, q := Process(db, a), Process(db, b);
            SameEnd(p, ApplyRow(p, flag, e), q, ApplyRow(q, flag, e)) <==> Alike(db, a, b, e)
  {
    hide ApplyRow, WellFormed, Fits, Holds, NothingBetween, D.Skips;
    var p, q := Process(db, a), Process(db, b);
    if e.table !in a && e.table !in b {
      UncachedAlike(db, a, b, flag, e);
    } else if Catches(db, a, e) {
      CatchingGrows(p, flag, e);
      RowEnd(q, flag, e);
      PutKeepsColumns(db, Bound(b, e), e);
    } else if Catches(db, b, e) {
      CatchingGrows(q, flag, e);
      RowEnd(p, flag, e);
      PutKeepsColumns(db, Bound(a, e), e);
    } else {
      RowEnd(p, flag, e);
      RowEnd(q, flag, e);
      if Fits(db, a, e) && Fits(db, b, e) {
        FitsNames(db, a, e);
        PutSameIff(db, a, b, e);
      }
    }
  }

  lemma FitsNames(db: Database, columns: Cache, e: Event)
    requires e.change.IsRow() && e.table in db.tables && Fits(db, columns, e)
    ensures D.NamesRow(db.tables[e.table], e.change.Image())
  {
  }

  lemma PutKeepsColumns(db: Database, cached: seq<string>, e: Event)
    requires e.change.IsRow() && e.table in db.tables
    ensures D.NamesRow(db.tables[e.table], e.change.Image()) ==>
              D.ExecIn(db, e.table, PutOf(db.tables[e.table], cached, e)).tables[e.table].columns ==
              db.tables[e.table].columns
  {
  }

  lemma UncachedAlike(db: Database, a: Cache, b: Cache, flag: string, e: Event)
    requires e.change.IsRow() && e.table !in a && e.table !in b
    ensures var p, q := Process(db, a), Process(db, b);
            SameEnd(p, ApplyRow(p, flag, e), q, ApplyRow(q, flag, e))
    ensures Alike(db, a, b, e)
  {
    hide Inferred, Binds, PutOf, Spelled, CatchUp, Made, Creatable, Agree, Behind, Holds;
    var cols := Inferred(e.change.Image());
    assert Ensure(Process(db, a), flag, e.table, cols, false).states ==
           Ensure(Process(db, b), flag, e.table, cols, false).states;
    assert Ensure(Process(db, a), flag, e.table, cols, false).ok ==
           Ensure(Process(db, b), flag, e.table, cols, false).ok;
  }

  lemma NonRowIsCacheFree(db: Database, a: Cache, b: Cache, flag: string, e: Event)
    requires !e.change.IsRow()
    ensures SameEnd(Process(db, a), Apply(Process(db, a), flag, e), Process(db, b), Apply(Process(db, b), flag, e))
  {
    hide CatchUp, Made, Creatable, Agree, Spelled, Evolved;
  }

  /** One event ends the same under two caches exactly when it is alike under them. */
  lemma StepAlikeIff(db: Database, a: Cache, b: Cache, flag: string, e: Event)
    requires WellFormed(e) && Cached(Process(db, a)) && Cached(Process(db, b))
    ensures var p, q := Process(db, a), Process(db, b);
            SameEnd(p, Step(p, flag, e), q, Step(q, flag, e)) <==> Alike(db, a, b, e)
  {
    hide Apply, WellFormed, Cached, D.Skips;
    if !D.Skips(db, e) {
      var p, q := Process(db, a), Process(db, b);
      if e.change.IsRow() {
        RowAlikeIff(db, a, b, flag, e);
        RowIsApplied(p, flag, e);
        RowIsApplied(q, flag, e);
      } else {
        NonRowIsCacheFree(db, a, b, flag, e);
      }
      SavedSameIff(D.Final(db, Apply(p, flag, e).states), D.Final(db, Apply(q, flag, e).states), e);
      ApplyKeepsCheckpoint(p, flag, e);
      ApplyKeepsCheckpoint(q, flag, e);
    }
  }

  lemma RowIsApplied(p: Process, flag: string, e: Event)
    requires e.change.IsRow()
    ensures Apply(p, flag, e) == ApplyRow(p, flag, e)
  {
  }

  lemma ApplyKeepsCheckpoint(p: Process, flag: string, e: Event)
    ensures D.Final(p.db, Apply(p, flag, e).states).checkpoint == p.db.checkpoint
  {
    hide Apply;
    var states := Apply(p, flag, e).states;
    if states != [] {
      ApplyStates(p, flag, e, D.Final(p.db, states));
    }
  }

  lemma SavedSameIff(x: Database, y: Database, e: Event)
    ensures x.checkpoint == y.checkpoint ==>
              (D.SaveCursor(x, e.table, D.StampOf(e)) == D.SaveCursor(y, e.table, D.StampOf(e)) <==> x == y)
  {
  }

  lemma StepKeepsCached(p: Process, flag: string, e: Event)
    requires Cached(p)
    ensures Cached(End(p, Step(p, flag, e)))
  {
    hide D.Skips;
    if !D.Skips(p.db, e) {
      ApplyKeepsCached(p, flag, e);
    }
  }

  lemma {:induction false} GrowthKeepsTables(db: Database, table: string, missing: seq<ColumnSpec>)
    requires table in db.tables
    ensures D.Final(db, Growth(db, table, missing)).tables.Keys == db.tables.Keys
    decreases |missing|
  {
    hide AddIfNew;
    if missing != [] {
      GrowthKeepsTables(Growth(db, table, missing)[0], table, missing[1..]);
    }
  }

  lemma EnsureKeepsCached(p: Process, flag: string, table: string, cols: seq<ColumnSpec>, declared: bool)
    requires Cached(p)
    ensures Cached(End(p, Ensure(p, flag, table, cols, declared)))
  {
    hide Growth, Behind, Agree, Spelled, Creatable, Made;
    if table in p.db.tables {
      var want, got := Spelled(cols), p.db.tables[table].columns;
      if Behind(got, want, declared) {
        BehindIsShorter(got, want, declared);
        GrowthKeepsTables(p.db, table, want[|got|..]);
      }
    }
  }

  lemma ApplyKeepsCached(p: Process, flag: string, e: Event)
    requires Cached(p)
    ensures Cached(End(p, Apply(p, flag, e)))
  {
    hide Ensure, Evolved, Binds, PutOf, Inferred;
    if e.change.IsRow() {
      EnsureKeepsCached(p, flag, e.table, Inferred(e.change.Image()), false);
    } else if !e.change.DropTable? {
      EnsureKeepsCached(p, flag, e.table, e.change.columns, true);
    }
  }

  // --- along a feed -------------------------------------------------------------------------------

  /** After every event of the feed the two processes have left the same database, and the same verdict. */
  ghost predicate InStep(p: Process, q: Process, flag: string, feed: seq<Event>) {
    forall m :: 0 <= m <= |feed| ==> SameSoFar(p, q, flag, feed[..m])
  }

  ghost predicate SameSoFar(p: Process, q: Process, flag: string, feed: seq<Event>) {
    Outcome(p, flag, feed).0.db == Outcome(q, flag, feed).0.db && Outcome(p, flag, feed).1 == Outcome(q, flag, feed).1
  }

  /** Each event is alike under the caches the two processes have by then, as far as the feed is landed. */
  ghost predicate AlikeThroughout(db: Database, a: Cache, b: Cache, flag: string, feed: seq<Event>)
    decreases |feed|
  {
    feed != [] ==>
      && Alike(db, a, b, feed[0])
      && var x, y := Step(Process(db, a), flag, feed[0]), Step(Process(db, b), flag, feed[0]);
         x.ok ==> AlikeThroughout(D.Final(db, x.states), x.columns, y.columns, flag, feed[1..])
  }

  lemma {:induction false} InStepIff(db: Database, a: Cache, b: Cache, flag: string, feed: seq<Event>)
    requires AllWellFormed(feed) && Cached(Process(db, a)) && Cached(Process(db, b))
    ensures InStep(Process(db, a), Process(db, b), flag, feed) <==> AlikeThroughout(db, a, b, flag, feed)
    decreases |feed|
  {
    hide Step, Outcome, Alike, WellFormed, Cached;
    var p, q := Process(db, a), Process(db, b);
    OutcomeNil(p, flag);
    OutcomeNil(q, flag);
    if feed == [] {
      assert forall m :: 0 <= m <= |feed| ==> feed[..m] == [];
    } else {
      var e, rest := feed[0], feed[1..];
      var x, y := Step(p, flag, e), Step(q, flag, e);
      StepAlikeIff(db, a, b, flag, e);
      FirstEvent(p, q, flag, feed);
      if Alike(db, a, b, e) {
        if x.ok {
          StepKeepsCached(p, flag, e);
          StepKeepsCached(q, flag, e);
          InStepIff(D.Final(db, x.states), x.columns, y.columns, flag, rest);
          OneStepOn(p, q, flag, feed);
        } else {
          StoppedTogether(p, q, flag, feed);
        }
      }
    }
  }

  lemma FirstEvent(p: Process, q: Process, flag: string, feed: seq<Event>)
    requires feed != []
    ensures InStep(p, q, flag, feed) ==> SameEnd(p, Step(p, flag, feed[0]), q, Step(q, flag, feed[0]))
  {
    hide Step, Outcome;
    var e := feed[0];
    assert feed[..1] == [e] + [];
    OutcomeCons(p, flag, e, []);
    OutcomeCons(q, flag, e, []);
    OutcomeNil(End(p, Step(p, flag, e)), flag);
    OutcomeNil(End(q, Step(q, flag, e)), flag);
    assert InStep(p, q, flag, feed) ==> SameSoFar(p, q, flag, feed[..1]);
  }

  lemma LaterPrefix(p: Process, flag: string, feed: seq<Event>, m: nat)
    requires 0 < m <= |feed|
    ensures var x := Step(p, flag, feed[0]);
            Outcome(p, flag, feed[..m]) ==
            if x.ok then Outcome(End(p, x), flag, feed[1..][..m - 1]) else (End(p, x), false)
  {
    hide Step, Outcome;
    assert feed[..m] == [feed[0]] + feed[1..][..m - 1];
    OutcomeCons(p, flag, feed[0], feed[1..][..m - 1]);
  }

  lemma OneStepOn(p: Process, q: Process, flag: string, feed: seq<Event>)
    requires p.db == q.db && feed != []
    requires var x, y := Step(p, flag, feed[0]), Step(q, flag, feed[0]); SameEnd(p, x, q, y) && x.ok
    ensures var x, y := Step(p, flag, feed[0]), Step(q, flag, feed[0]);
            InStep(p, q, flag, feed) <==> InStep(End(p, x), End(q, y), flag, feed[1..])
  {
    hide Step, Outcome;
    var x, y := Step(p, flag, feed[0]), Step(q, flag, feed[0]);
    var p', q', rest := End(p, x), End(q, y), feed[1..];
    forall m: nat | 0 < m <= |feed|
      ensures SameSoFar(p, q, flag, feed[..m]) <==> SameSoFar(p', q', flag, rest[..m - 1])
    {
      LaterPrefix(p, flag, feed, m);
      LaterPrefix(q, flag, feed, m);
    }
    NothingYet(p, q, flag, feed);
    if InStep(p, q, flag, feed) {
      forall m | 0 <= m <= |rest|
        ensures SameSoFar(p', q', flag, rest[..m])
      {
        assert SameSoFar(p, q, flag, feed[..m + 1]);
        assert m + 1 - 1 == m;
      }
    }
  }

  lemma NothingYet(p: Process, q: Process, flag: string, feed: seq<Event>)
    requires p.db == q.db
    ensures SameSoFar(p, q, flag, feed[..0])
  {
    OutcomeNil(p, flag);
    OutcomeNil(q, flag);
    assert feed[..0] == [];
  }

  lemma StoppedTogether(p: Process, q: Process, flag: string, feed: seq<Event>)
    requires p.db == q.db && feed != []
    requires var x, y := Step(p, flag, feed[0]), Step(q, flag, feed[0]); SameEnd(p, x, q, y) && !x.ok
    ensures InStep(p, q, flag, feed)
  {
    hide Step, Outcome;
    forall m | 0 <= m <= |feed|
      ensures SameSoFar(p, q, flag, feed[..m])
    {
      if m == 0 {
        NothingYet(p, q, flag, feed);
      } else {
        LaterPrefix(p, flag, feed, m);
        LaterPrefix(q, flag, feed, m);
      }
    }
  }

  // ---------------------------------------------------------------------------------------------
  // Kills and restarts.

  /** A process opened over a database: nothing is cached. */
  function Opened(db: Database): Process {
    Process(db, map[])
  }

  /** The process after the first `n` events of a feed. */
  function At(p: Process, flag: string, feed: seq<Event>, n: nat): Process
    requires n <= |feed|
  {
    Outcome(p, flag, feed[..n]).0
  }

  /** A run killed on its event n: before it, or after some of the statements that apply it. */
  ghost predicate CutAt(p: Process, flag: string, feed: seq<Event>, n: nat, s: Database) {
    && n <= |feed| && Outcome(p, flag, feed[..n]).1
    && (s == At(p, flag, feed, n).db || (n < |feed| && CutInside(At(p, flag, feed, n), flag, feed[n], s)))
  }

  ghost predicate CutInside(p: Process, flag: string, e: Event, s: Database) {
    !D.Skips(p.db, e) && !e.change.DropTable? && s in Apply(p, flag, e).states
  }

  lemma StatesOfStep(p: Process, flag: string, e: Event, s: Database)
    requires s in Step(p, flag, e).states
    ensures (s == D.Final(p.db, Step(p, flag, e).states) && Step(p, flag, e).ok) || CutInside(p, flag, e, s)
  {
    hide ApplyRow, ApplySchema, Ensure;
  }

  lemma LaterStates(p: Process, flag: string, e: Event, rest: seq<Event>, s: Database)
    requires s in Run(p, flag, [e] + rest).states && s !in Step(p, flag, e).states
    ensures Step(p, flag, e).ok && s in Run(End(p, Step(p, flag, e)), flag, rest).states
  {
    hide Step;
    assert ([e] + rest)[1..] == rest;
  }

  /** Every database inside a run is such a cut. */
  lemma {:induction false} EveryStateIsACut(p: Process, flag: string, feed: seq<Event>, s: Database) returns (n: nat)
    requires s == p.db || s in Run(p, flag, feed).states
    ensures CutAt(p, flag, feed, n, s)
    decreases |feed|
  {
    hide Step, Outcome, CutInside;
    OutcomeNil(p, flag);
    assert feed[..0] == [];
    n := 0;
    if s != p.db {
      var e, rest := feed[0], feed[1..];
      assert feed == [e] + rest;
      if s in Step(p, flag, e).states {
        StatesOfStep(p, flag, e, s);
        if !CutInside(p, flag, e, s) {
          n := 1;
          assert feed[..1] == [e] + [];
          OutcomeCons(p, flag, e, []);
          OutcomeNil(End(p, Step(p, flag, e)), flag);
        }
      } else {
        LaterStates(p, flag, e, rest, s);
        var m := EveryStateIsACut(End(p, Step(p, flag, e)), flag, rest, s);
        n := m + 1;
        assert feed[..n] == [e] + rest[..m];
        OutcomeCons(p, flag, e, rest[..m]);
      }
    }
  }

  /** A run up to event n has everything streamed so far behind its cursors, and caches only what is there. */
  lemma {:induction false} RunsUpTo(p: Process, flag: string, feed: seq<Event>, n: nat)
    requires AllWellFormed(feed) && Cached(p) && n <= |feed| && Outcome(p, flag, feed[..n]).1
    ensures Cached(At(p, flag, feed, n)) && E.Covers(At(p, flag, feed, n).db, feed[..n])
    ensures Outcome(At(p, flag, feed, n), flag, feed[n..]) == Outcome(p, flag, feed)
    decreases n
  {
    hide Step, Outcome, WellFormed, Cached, D.Skips;
    if n == 0 {
      OutcomeNil(p, flag);
      assert feed[..0] == [] && feed[0..] == feed;
    } else {
      var e := feed[n - 1];
      assert feed[..n] == feed[..n - 1] + [e] && feed[n - 1..] == [e] + feed[n..];
      OutcomeSnoc(p, flag, feed[..n - 1], e);
      RunsUpTo(p, flag, feed, n - 1);
      var at := At(p, flag, feed, n - 1);
      assert WellFormed(e);
      assert R.Storable(e) by { IsStorable(e); }
      StepKeepsCached(at, flag, e);
      NextCovers(at, flag, e, feed[..n - 1]);
      OutcomeCons(at, flag, e, feed[n..]);
    }
  }

  lemma IsStorable(e: Event)
    requires WellFormed(e)
    ensures R.Storable(e)
  {
  }

  /** Killed once a retype that moves the key was done and before its position was. */
  predicate Moved(p: Process, flag: string, feed: seq<Event>, n: nat, s: Database)
    requires n <= |feed|
  {
    n < |feed| && s != At(p, flag, feed, n).db && MovesKey(At(p, flag, feed, n).db, flag, feed[n])
  }

  /**
   Had the killed process kept its cache, it would have gone on as if nothing had happened; unless the
   kill fell in a retype that moves the key, and then the two tables are keyed apart after it.
   */
  lemma KeptGoesOn(p: Process, flag: string, feed: seq<Event>, n: nat, s: Database)
    requires AllWellFormed(feed) && Cached(p) && CutAt(p, flag, feed, n, s)
    ensures var kept := Process(s, At(p, flag, feed, n).columns);
            && Cached(kept) && E.Covers(s, feed[..n])
            && (!Moved(p, flag, feed, n, s) ==> Outcome(kept, flag, feed[n..]) == Outcome(p, flag, feed))
            && (Moved(p, flag, feed, n, s) ==>
                 KeyMoved(At(p, flag, feed, n).db, Outcome(p, flag, feed[..n + 1]).0.db,
                          End(kept, Step(kept, flag, feed[n])).db, flag, feed[n]))
  {
    hide Step, Outcome, WellFormed, MovesKey, E.Covers, CutInside, Cached, KeyMoved;
    RunsUpTo(p, flag, feed, n);
    var at := At(p, flag, feed, n);
    if s != at.db {
      InsideIsThere(at, flag, feed[..n], feed[n], s);
      assert feed[n..] == [feed[n]] + feed[n + 1..] && feed[..n + 1] == feed[..n] + [feed[n]];
      StepResumesInside(at, flag, feed[n], s);
      OutcomeCons(at, flag, feed[n], feed[n + 1..]);
      OutcomeCons(Process(s, at.columns), flag, feed[n], feed[n + 1..]);
      OutcomeSnoc(p, flag, feed[..n], feed[n]);
    }
  }

  lemma StepResumesInside(at: Process, flag: string, e: Event, s: Database)
    requires WellFormed(e) && CutInside(at, flag, e, s)
    ensures var kept := Process(s, at.columns); var again, once := Step(kept, flag, e), Step(at, flag, e);
            && again.ok == once.ok
            && (End(kept, again) == End(at, once) <==> !MovesKey(at.db, flag, e))
            && (MovesKey(at.db, flag, e) ==> KeyMoved(at.db, End(at, once).db, End(kept, again).db, flag, e))
  {
    hide Step, Apply, WellFormed, D.Skips, MovesKey, KeyMoved;
    StepResumes(at, flag, e, s);
  }

  lemma InsideIsThere(at: Process, flag: string, done: seq<Event>, e: Event, s: Database)
    requires CutInside(at, flag, e, s) && Cached(at) && E.Covers(at.db, done)
    ensures Cached(Process(s, at.columns)) && E.Covers(s, done)
  {
    hide Apply, D.Skips, E.Covers;
    ApplyStates(at, flag, e, s);
    SameCovers(at.db, s, done);
  }

  lemma SameCovers(db: Database, next: Database, done: seq<Event>)
    requires next.checkpoint == db.checkpoint && E.Covers(db, done)
    ensures E.Covers(next, done)
  {
  }

  lemma {:induction false} RecalledIsThere(db: Database, columns: Cache, done: seq<Event>)
    requires Cached(Process(db, columns)) && Stands(db, columns, done)
    ensures Cached(Process(db, Recalled(columns, done)))
    decreases |done|
  {
    hide Behind, Agree, Binds, Holds, Catches;
    if done != [] {
      RecalledIsThere(db, Recall(columns, done[0]), done[1..]);
    }
  }

  /**
   A run killed anywhere and restarted with nothing but its database. Going over what was taken in, drops
   aside, is a no-op exactly when it still describes the destination; and then the restart goes on in step
   with the run, the database the same after every further event, exactly when each is alike under the cache
   the killed process had and the one that going over it put back. A kill inside a retype that moves the key
   is the exception: the run's table has no primary key from then on, and the restart's is keyed by the flag.
   */
  lemma RestartGoesOnIff(db: Database, flag: string, feed: seq<Event>, n: nat, s: Database)
    requires AllWellFormed(feed) && n <= |feed| && CutAt(Opened(db), flag, feed, n, s)
    ensures var done, rest := feed[..n], feed[n..];
            var kept, recalled := At(Opened(db), flag, feed, n).columns, Recalled(map[], feed[..n]);
            && (E.NoDrops(done) ==>
                 (Outcome(Opened(s), flag, done).0.db == s && Outcome(Opened(s), flag, done).1 <==>
                  Stands(s, map[], done)))
            && (!Moved(Opened(db), flag, feed, n, s) ==>
                 Outcome(Opened(db), flag, feed) == Outcome(Process(s, kept), flag, rest))
            && (Stands(s, map[], done) ==>
                 && Outcome(Opened(s), flag, feed) == Outcome(Process(s, recalled), flag, rest)
                 && (InStep(Process(s, kept), Process(s, recalled), flag, rest) <==>
                     AlikeThroughout(s, kept, recalled, flag, rest)))
            && (Stands(s, map[], done) && Moved(Opened(db), flag, feed, n, s) ==>
                 KeyMoved(At(Opened(db), flag, feed, n).db, Outcome(Opened(db), flag, feed[..n + 1]).0.db,
                          Outcome(Opened(s), flag, feed[..n + 1]).0.db, flag, feed[n]))
  {
    hide *;
    var done, rest := feed[..n], feed[n..];
    Halves(feed, n);
    OpenedIs(db);
    OpenedIs(s);
    KeptGoesOn(Opened(db), flag, feed, n, s);
    if E.NoDrops(done) {
      RedeliveryIsNoOpIff(Opened(s), flag, done);
    }
    if Stands(s, map[], done) {
      GoesOnIff(s, flag, done, rest, At(Opened(db), flag, feed, n).columns);
      if Moved(Opened(db), flag, feed, n, s) {
        MovedIsRetype(Opened(db), flag, feed, n, s);
        RetypedOnRestart(s, flag, done, feed[n], At(Opened(db), flag, feed, n).columns);
        assert feed[..n + 1] == done + [feed[n]];
      }
    }
  }

  lemma MovedIsRetype(p: Process, flag: string, feed: seq<Event>, n: nat, s: Database)
    requires n <= |feed| && Moved(p, flag, feed, n, s)
    ensures n < |feed| && feed[n].change.AlterColumnType?
  {
    hide Outcome;
  }

  /** A retype does the same whatever is cached. */
  lemma RetypedOnRestart(s: Database, flag: string, done: seq<Event>, e: Event, kept: Cache)
    requires E.Covers(s, done) && Stands(s, map[], done) && e.change.AlterColumnType?
    ensures Outcome(Opened(s), flag, done + [e]).0.db == End(Process(s, kept), Step(Process(s, kept), flag, e)).db
  {
    hide Step, Outcome, Stands, E.Covers, Recalled;
    var recalled := Process(s, Recalled(map[], done));
    StandingIsStill(Opened(s), flag, done, [e]);
    assert [e] + [] == [e];
    OutcomeCons(recalled, flag, e, []);
    OutcomeNil(End(recalled, Step(recalled, flag, e)), flag);
    RetypeIsCacheFree(s, kept, Recalled(map[], done), flag, e);
  }

  lemma RetypeIsCacheFree(db: Database, a: Cache, b: Cache, flag: string, e: Event)
    requires e.change.AlterColumnType?
    ensures var p, q := Process(db, a), Process(db, b); End(p, Step(p, flag, e)).db == End(q, Step(q, flag, e)).db
  {
    hide Apply;
    NonRowIsCacheFree(db, a, b, flag, e);
  }

  lemma Halves(feed: seq<Event>, n: nat)
    requires n <= |feed| && AllWellFormed(feed)
    ensures AllWellFormed(feed[..n]) && AllWellFormed(feed[n..]) && feed[..n] + feed[n..] == feed
  {
  }

  lemma OpenedIs(db: Database)
    ensures Opened(db).db == db && Opened(db).columns == map[] && Cached(Opened(db))
  {
  }

  lemma GoesOnIff(s: Database, flag: string, done: seq<Event>, rest: seq<Event>, kept: Cache)
    requires AllWellFormed(rest) && E.Covers(s, done) && Stands(s, map[], done) && Cached(Process(s, kept))
    ensures var recalled := Recalled(map[], done);
            && Outcome(Opened(s), flag, done + rest) == Outcome(Process(s, recalled), flag, rest)
            && (InStep(Process(s, kept), Process(s, recalled), flag, rest) <==>
                AlikeThroughout(s, kept, recalled, flag, rest))
  {
    assert Opened(s).db == s && Opened(s).columns == map[] && Cached(Opened(s));
    hide Step, Outcome, WellFormed, Stands, E.Covers, InStep, AlikeThroughout, Recalled;
    StandingIsStill(Opened(s), flag, done, rest);
    RecalledIsThere(s, map[], done);
    InStepIff(s, kept, Recalled(map[], done), flag, rest);
  }

  /** A kill after which the restart goes on in step. */
  ghost predicate SafeCut(db: Database, flag: string, feed: seq<Event>, n: nat, s: Database) {
    && n <= |feed| && CutAt(Opened(db), flag, feed, n, s)
    && !Moved(Opened(db), flag, feed, n, s)
    && Stands(s, map[], feed[..n])
    && AlikeThroughout(s, At(Opened(db), flag, feed, n).columns, Recalled(map[], feed[..n]), flag, feed[n..])
  }

  /** Any number of restarts, each after such a kill, leave what one uninterrupted run leaves. */
  lemma {:induction false} RestartsConverge(dbs: seq<Database>, ns: seq<nat>, flag: string, feed: seq<Event>)
    requires AllWellFormed(feed) && |dbs| == |ns| + 1
    requires forall i :: 0 <= i < |ns| ==> SafeCut(dbs[i], flag, feed, ns[i], dbs[i + 1])
    ensures SameSoFar(Opened(dbs[|ns|]), Opened(dbs[0]), flag, feed)
    decreases |ns|
  {
    hide Outcome, SafeCut, WellFormed;
    if ns != [] {
      var k := |ns| - 1;
      RestartsConverge(dbs[..|ns|], ns[..k], flag, feed);
      SafeRestart(dbs[k], flag, feed, ns[k], dbs[k + 1]);
    }
  }

  lemma SafeRestart(db: Database, flag: string, feed: seq<Event>, n: nat, s: Database)
    requires AllWellFormed(feed) && SafeCut(db, flag, feed, n, s)
    ensures SameSoFar(Opened(s), Opened(db), flag, feed)
  {
    hide Outcome, WellFormed, CutAt, Moved, Stands, AlikeThroughout, At, Recalled, E.NoDrops;
    RestartGoesOnIff(db, flag, feed, n, s);
    var rest := feed[n..];
    assert rest[..|rest|] == rest;
  }

  /**
   After a declaration is accepted, the columns cached are the destination's own exactly when it had as
   many columns or was behind: one that is ahead is left with a stale cache.
   */
  lemma CacheIsTrueIff(p: Process, flag: string, table: string, cols: seq<ColumnSpec>)
    requires table in p.db.tables && Creatable(Names(cols)) && Ensure(p, flag, table, cols, true).ok
    ensures var end := End(p, Ensure(p, flag, table, cols, true)); var got := p.db.tables[table].columns;
            && table in end.columns && table in end.db.tables
            && (end.columns[table] == Names(end.db.tables[table].columns) <==>
                |got| == |cols| || Behind(got, Spelled(cols), true))
  {
    hide AffinityOf, Growth, Creatable, Behind, Spelled, Agree;
    var want, got := Spelled(cols), p.db.tables[table].columns;
    var at := D.Final(p.db, CatchUp(p.db, table, want, true));
    CatchUpIsEmptyIff(p.db, table, want, true);
    if Behind(got, want, true) {
      BehindIsShorter(got, want, true);
      var missing := want[|got|..];
      SpelledNames(cols, got, true);
      GrowthResumes(p.db, table, missing, |missing| - 1);
      assert missing[..|missing|] == missing;
    } else if |got| == |cols| {
      AgreeingNames(want, got);
    } else {
      assert |Names(cols)| != |Names(got)|;
    }
  }

  lemma AgreeingNames(want: seq<ColumnSpec>, got: seq<ColumnSpec>)
    requires Agree(want, got) && |want| == |got|
    ensures Names(want) == Names(got)
  {
    hide AffinityOf;
    forall i | 0 <= i < |want|
      ensures Names(want)[i] == Names(got)[i]
    {
      assert !Conflicts(want, got, i);
    }
  }
}
