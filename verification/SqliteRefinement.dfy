/**
 The SQLite sink against the plain materialised table. It caches the columns of the last declaration
 and never drops one, so it shows the table exactly when each declaration extends what is in force.
 */
module SqliteRefinement {
  import opened Feed
  import opened Destination
  import opened TableFold
  import opened SqliteSpec
  import opened SqliteReplay
  import C = CursorPath
  import D = DuckSpec
  import F = Refinement
  import Strings

  // --- the columns a feed declares ------------------------------------------------------------

  /** The columns in force after an event, as this destination spells them; none before there is a table. */
  function ColumnsNext(s: seq<ColumnSpec>, c: Change): seq<ColumnSpec> {
    match c
    case CreateTable(cols) => s + if |s| < |cols| then Spelled(cols)[|s|..] else []
    case AddColumn(cols, name) =>
      var typ := LastTypeIn(Spelled(cols), name);
      if s == [] || typ.None? then Spelled(cols) else s + [ColumnSpec(name, typ.value)]
    case RenameColumn(cols, from, to) => if s == [] then Spelled(cols) else ColumnsAfter(s, Rename(from, to))
    case AlterColumnType(cols, _, _, _) => Spelled(cols)
    case DropTable => []
    case _ => if s == [] then Spelled(Inferred(c.Image())) else s
  }

  function ColumnsOf(feed: seq<Event>): seq<ColumnSpec> {
    if feed == [] then [] else ColumnsNext(ColumnsOf(feed[..|feed| - 1]), feed[|feed| - 1].change)
  }

  /**
   The event that makes the table names the key column, and a later declaration names the columns in
   force, or those and more with the affinities they have.
   */
  predicate Extends(flag: string, s: seq<ColumnSpec>, c: Change) {
    && (s == [] ==> flag in NamesIn(c))
    && (s != [] && c.CreateTable? ==> Names(c.columns) == Names(s) || Behind(s, Spelled(c.columns), true))
  }

  predicate AllExtend(flag: string, feed: seq<Event>) {
    feed == [] ||
    (AllExtend(flag, feed[..|feed| - 1]) && Extends(flag, ColumnsOf(feed[..|feed| - 1]), feed[|feed| - 1].change))
  }

  /** A declaration has columns, as the reader of the feed demands. */
  predicate Shaped(e: Event) {
    e.change.CreateTable? ==> e.change.columns != []
  }

  // --- one event ------------------------------------------------------------------------------

  /** Both sides stand together, on these columns, and the process has them cached. */
  ghost predicate Faithful(
    s: F.Standing, cols: seq<ColumnSpec>, p: Process, flag: string, table: string, keys: set<Value>)
  {
    && F.Holds(s, p.db, flag, table, keys)
    && (table in p.columns <==> table in p.db.tables)
    && (if table in p.db.tables
        then p.db.tables[table].columns == cols && p.columns[table] == Names(cols)
        else cols == [])
  }

  /** Where both sides are once the event is taken. */
  function Onward(s: F.Standing, e: Event): F.Standing
    requires Fold(s.view, e.change).Some?
  {
    F.Standing(Fold(s.view, e.change).value, F.ShapeAfter(s.shape, e.change), F.NextStamps(s.view, s.stamps, e))
  }

  ghost predicate TakenTogether(
    s: F.Standing, cols: seq<ColumnSpec>, next: Process, flag: string, e: Event, keys: set<Value>)
  {
    && Fold(s.view, e.change).Some?
    && Faithful(Onward(s, e), ColumnsNext(cols, e.change), next, flag, e.table, keys)
  }

  /** With every column cached, a row is written as DuckDB's sink writes it. */
  lemma WholePut(t: Table, e: Event)
    requires e.change.IsRow() && t.key in e.change.Image()
    ensures PutOf(t, Names(t.columns), e) == D.PutOf(t, e)
  {
  }

  lemma RowThere(s: F.Standing, cols: seq<ColumnSpec>, p: Process, flag: string, e: Event, keys: set<Value>)
    requires Faithful(s, cols, p, flag, e.table, keys) && F.Ready(s, p.db, flag, e, keys)
    requires e.change.IsRow() && e.table in p.db.tables && ApplyRow(p, flag, e).ok
    ensures TakenTogether(s, cols, End(p, ApplyRow(p, flag, e)), flag, e, keys)
  {
    hide F.Matches, F.StampsAre, F.Apart, F.Newer, Ensure, Spelled, Inferred;
    var t := p.db.tables[e.table];
    assert Binds(t, Names(cols), e.change.Image());
    WholePut(t, e);
    F.RowInTable(s, p.db, flag, e, keys);
    F.PutKeepsColumns(t, e);
    hide Exec, PutOf, D.PutOf;
  }

  /** A table just made, empty on both sides. */
  lemma MadeMatches(s: F.Standing, db: D.Database, flag: string, table: string, cols: seq<ColumnSpec>, keys: set<Value>)
    requires table !in db.tables && F.Holds(s, db, flag, table, keys) && flag in Names(cols)
    ensures var made := db.(tables := db.tables[table := Made(cols, flag)]);
            && F.Holds(s.(shape := Names(cols)), made, flag, table, keys)
            && F.Holds(s.(shape := Names(cols), view := s.view.(columns := Names(cols))), made, flag, table, keys)
  {
    hide F.Matches, F.StampsAre;
    assert Made(cols, flag) == Table(cols, flag, map[]);
    F.EmptyMatches(flag, cols);
    F.SameRows(NewView(flag), NewView(flag).(columns := Names(cols)), Made(cols, flag));
    F.NoStamps(Made(cols, flag));
  }

  /** The first row of a table nobody declared makes it, with the row's own columns. */
  lemma FirstRow(s: F.Standing, p: Process, flag: string, e: Event, keys: set<Value>)
    requires Faithful(s, [], p, flag, e.table, keys) && F.Ready(s, p.db, flag, e, keys)
    requires e.change.IsRow() && e.table !in p.db.tables && ApplyRow(p, flag, e).ok
    ensures TakenTogether(s, [], End(p, ApplyRow(p, flag, e)), flag, e, keys)
  {
    var row := e.change.Image();
    var cols := Inferred(row);
    var want, shape := Spelled(cols), Strings.Sorted(row.Keys);
    assert Names(want) == Names(cols) == shape;
    hide Inferred, Spelled, Strings.Sorted;
    MadeFrom(p, flag, e.table, cols, false);
    var made := Process(p.db.(tables := p.db.tables[e.table := Made(want, flag)]), p.columns[e.table := shape]);
    KeyIsFlag(want, flag, row, shape);
    MadeMatches(s, p.db, flag, e.table, want, keys);
    MadeThenRow(p, made, flag, e);
    assert shape != [] && forall n :: n in row ==> n in shape by { Sorts(row, shape); }
    hide F.Holds, F.Newer, F.Apart, Made, Ensure, ApplyRow;
    assert F.Ready(s.(shape := shape), made.db, flag, e, keys);
    RowThere(s.(shape := shape), want, made, flag, e, keys);
  }

  lemma MadeFrom(p: Process, flag: string, table: string, cols: seq<ColumnSpec>, declared: bool)
    requires table !in p.db.tables && Ensure(p, flag, table, cols, declared).ok
    ensures var made := p.db.(tables := p.db.tables[table := Made(Spelled(cols), flag)]);
            Ensure(p, flag, table, cols, declared) == Result([made], p.columns[table := Names(cols)], true)
  {
    hide Spelled, Made, Creatable, CatchUp;
  }

  lemma KeyIsFlag(want: seq<ColumnSpec>, flag: string, row: Row, cached: seq<string>)
    ensures Binds(Made(want, flag), cached, row) ==> flag in Names(want)
  {
  }

  lemma Sorts(row: Row, shape: seq<string>)
    requires shape == Strings.Sorted(row.Keys)
    ensures forall n :: n in row ==> n in shape
  {
  }

  /** A row that makes its table is a row of the table made. */
  lemma MadeThenRow(p: Process, made: Process, flag: string, e: Event)
    requires e.change.IsRow() && e.table !in p.columns && ApplyRow(p, flag, e).ok
    requires var ensured := Ensure(p, flag, e.table, Inferred(e.change.Image()), false);
             ensured.ok ==> ensured.states == [made.db] && ensured.columns == made.columns
    ensures ApplyRow(made, flag, e).ok && End(p, ApplyRow(p, flag, e)) == End(made, ApplyRow(made, flag, e))
    ensures e.table in made.columns && e.table in made.db.tables
    ensures Binds(made.db.tables[e.table], made.columns[e.table], e.change.Image())
  {
    hide Ensure, Inferred, PutOf, Binds;
  }

  /** A declaration that makes the table. */
  lemma Declares(s: F.Standing, p: Process, flag: string, e: Event, keys: set<Value>)
    requires Faithful(s, [], p, flag, e.table, keys) && e.table !in p.db.tables
    requires (e.change.CreateTable? || e.change.AddColumn?) && flag in Names(e.change.columns)
    requires Ensure(p, flag, e.table, e.change.columns, true).ok
    ensures TakenTogether(s, [], End(p, Ensure(p, flag, e.table, e.change.columns, true)), flag, e, keys)
  {
    hide F.Matches, F.StampsAre, Made, Ensure, Spelled, LastTypeIn;
    var want := Spelled(e.change.columns);
    MadeFrom(p, flag, e.table, e.change.columns, true);
    MadeMatches(s, p.db, flag, e.table, want, keys);
    MadeColumns(want, flag);
    assert [] + want[0..] == want;
    assert ColumnsNext([], e.change) == want;
    assert Onward(s, e) == s.(shape := Names(want), view := s.view.(columns := Names(want)));
    hide F.Holds;
  }

  lemma MadeColumns(cols: seq<ColumnSpec>, flag: string)
    ensures Made(cols, flag).columns == cols
  {
  }

  /** Catching up with distinct new names is DuckDB's own. */
  lemma {:induction false} GrowsAlike(db: D.Database, table: string, missing: seq<ColumnSpec>)
    requires table in db.tables && Creatable(Names(db.tables[table].columns + missing))
    ensures D.Final(db, Growth(db, table, missing)) == D.Final(db, D.Growth(db, table, missing))
    decreases |missing|
  {
    hide Creatable;
    if missing != [] {
      var got := db.tables[table].columns;
      FirstIsNew(got, missing);
      assert (got + [missing[0]]) + missing[1..] == got + missing;
      GrowsAlike(D.ExecIn(db, table, Add(missing[0])), table, missing[1..]);
    }
  }

  /** A declaration of a table that is behind it. */
  lemma CatchesUp(s: F.Standing, cols: seq<ColumnSpec>, p: Process, flag: string, e: Event, keys: set<Value>)
    requires Faithful(s, cols, p, flag, e.table, keys) && e.table in p.db.tables && WellFormed(e)
    requires e.change.CreateTable? && Behind(cols, Spelled(e.change.columns), true)
    ensures var grown := D.Final(p.db, CatchUp(p.db, e.table, Spelled(e.change.columns), true));
            && F.Holds(Onward(s, e), grown, flag, e.table, keys)
            && e.table in grown.tables && grown.tables[e.table].columns == ColumnsNext(cols, e.change)
  {
    var want, t := Spelled(e.change.columns), p.db.tables[e.table];
    assert Creatable(Names(e.change.columns));
    assert |cols| < |want| by { BehindIsShorter(cols, want, true); }
    var missing := want[|cols|..];
    SpelledNames(e.change.columns, cols, true);
    hide Behind, Growth, Spelled, F.Matches, F.StampsAre, Creatable, WellFormed, D.Growth;
    GrowsAlike(p.db, e.table, missing);
    IsDistinct(Names(cols + missing));
    F.Undeclared(s.view, t);
    F.GrowthMatches(s.view.(columns := []), p.db, e.table, missing, s.stamps);
    var grown := D.Final(p.db, Growth(p.db, e.table, missing));
    F.SameRows(s.view.(columns := []), s.view.(columns := Names(e.change.columns)), grown.tables[e.table]);
  }

  lemma IsDistinct(names: seq<string>)
    requires Creatable(names)
    ensures Distinct(names)
  {
  }

  /** A declaration of a table that is there. */
  lemma Redeclares(s: F.Standing, cols: seq<ColumnSpec>, p: Process, flag: string, e: Event, keys: set<Value>)
    requires Faithful(s, cols, p, flag, e.table, keys) && e.table in p.db.tables && WellFormed(e) && Shaped(e)
    requires e.change.CreateTable? && Extends(flag, cols, e.change)
    requires Ensure(p, flag, e.table, e.change.columns, true).ok
    ensures TakenTogether(s, cols, End(p, Ensure(p, flag, e.table, e.change.columns, true)), flag, e, keys)
  {
    var want, t := Spelled(e.change.columns), p.db.tables[e.table];
    assert |want| == |e.change.columns| == |Names(e.change.columns)| && |cols| == |Names(cols)|;
    CatchUpIsEmptyIff(p.db, e.table, want, true);
    hide Behind, Growth, Spelled, F.Matches, F.StampsAre, Creatable, WellFormed, Agree;
    if Behind(cols, want, true) {
      CatchesUp(s, cols, p, flag, e, keys);
    } else {
      F.SameRows(s.view, s.view.(columns := Names(e.change.columns)), t);
      assert cols + [] == cols;
    }
  }

  /** A column change of a table that is there. */
  lemma Alters(s: F.Standing, cols: seq<ColumnSpec>, p: Process, flag: string, e: Event, keys: set<Value>)
    requires Faithful(s, cols, p, flag, e.table, keys) && F.Ready(s, p.db, flag, e, keys) && WellFormed(e)
    requires (e.change.AddColumn? || e.change.RenameColumn?) && e.table in p.db.tables && ApplySchema(p, flag, e).ok
    ensures TakenTogether(s, cols, End(p, ApplySchema(p, flag, e)), flag, e, keys)
  {
    hide F.Matches, F.Apart, F.Newer, F.StampsAre, Fold, Evolved, WellFormed, F.Consistent, ColumnsNext, F.ShapeAfter;
    var t := p.db.tables[e.table];
    EvolvedIs(t, flag, e);
    if e.change.AddColumn? {
      AddsTogether(s, cols, t, flag, e);
    } else {
      RenamesTogether(s, cols, t, flag, e);
    }
  }

  /** What both sides come to when a statement evolves the table. */
  ghost predicate EvolvesTogether(s: F.Standing, cols: seq<ColumnSpec>, u: Table, e: Event) {
    && Fold(s.view, e.change).Some? && F.Matches(Fold(s.view, e.change).value, u)
    && u.columns == ColumnsNext(cols, e.change) && Names(u.columns) == F.ShapeAfter(s.shape, e.change) != []
    && F.StampsAre(u, s.stamps) && F.NextStamps(s.view, s.stamps, e) == s.stamps
  }

  lemma AddsTogether(s: F.Standing, cols: seq<ColumnSpec>, t: Table, flag: string, e: Event)
    requires e.change.AddColumn? && LastTypeIn(Spelled(e.change.columns), e.change.column).Some?
    requires F.Matches(s.view, t) && F.StampsAre(t, s.stamps) && t.columns == cols && s.shape == Names(cols) != []
    requires F.Consistent(s.shape, e.change)
    ensures var c := ColumnSpec(e.change.column, LastTypeIn(Spelled(e.change.columns), e.change.column).value);
            EvolvesTogether(s, cols, Exec(t, Add(c)), e) && Exec(t, Add(c)).rows.Keys == t.rows.Keys
  {
    hide F.Matches, F.StampsAre, Spelled, LastTypeIn, Carry;
    var c := ColumnSpec(e.change.column, LastTypeIn(Spelled(e.change.columns), e.change.column).value);
    F.AddStep(s.view, t, e.change, c.typ);
    assert Names(t.columns + [c]) == Names(t.columns) + [c.name];
    F.SchemaKeepsStamps(t, Add(c), s.stamps);
  }

  lemma RenamesTogether(s: F.Standing, cols: seq<ColumnSpec>, t: Table, flag: string, e: Event)
    requires e.change.RenameColumn? && e.change.from != "" && e.change.to != ""
    requires F.Matches(s.view, t) && F.StampsAre(t, s.stamps) && t.columns == cols && s.shape == Names(cols) != []
    requires F.Consistent(s.shape, e.change)
    ensures var u := Exec(t, Rename(e.change.from, e.change.to));
            EvolvesTogether(s, cols, u, e) && u.rows.Keys == t.rows.Keys
  {
    hide F.Matches, F.StampsAre, Carry, MoveIn;
    F.RenameStepMatches(s.view, t, e.change);
    F.RenamedNames(t.columns, e.change.from, e.change.to);
    F.SchemaKeepsStamps(t, Rename(e.change.from, e.change.to), s.stamps);
  }

  /** A change that fits the table is the statement it names. */
  lemma EvolvedIs(t: Table, flag: string, e: Event)
    requires WellFormed(e) && (e.change.AddColumn? || e.change.RenameColumn?)
    requires F.Consistent(Names(t.columns), e.change)
    requires Evolved(t, flag, e.change).Some?
    ensures var u := Evolved(t, flag, e.change).value;
            if e.change.AddColumn? then
              var typ := LastTypeIn(Spelled(e.change.columns), e.change.column);
              typ.Some? && u == Exec(t, Add(ColumnSpec(e.change.column, typ.value)))
            else u == Exec(t, Rename(e.change.from, e.change.to)) && e.change.from != "" && e.change.to != ""
  {
    hide Exec, Spelled, D.Bookkeeping;
  }

  /** One event, taken by both sides. */
  lemma AppliesTogether(s: F.Standing, cols: seq<ColumnSpec>, p: Process, flag: string, e: Event, keys: set<Value>)
    requires Faithful(s, cols, p, flag, e.table, keys) && F.Ready(s, p.db, flag, e, keys)
    requires WellFormed(e) && Shaped(e) && Extends(flag, cols, e.change) && Apply(p, flag, e).ok
    ensures TakenTogether(s, cols, End(p, Apply(p, flag, e)), flag, e, keys)
  {
    var there := e.table in p.db.tables;
    assert there <==> cols != [];
    hide F.Holds, F.Apart, F.Newer, TakenTogether, Ensure, ApplyRow, Evolved, WellFormed, Behind;
    if e.change.IsRow() {
      if there {
        RowThere(s, cols, p, flag, e, keys);
      } else {
        FirstRow(s, p, flag, e, keys);
      }
    } else if !there {
      Declares(s, p, flag, e, keys);
    } else if e.change.CreateTable? {
      Redeclares(s, cols, p, flag, e, keys);
    } else {
      Alters(s, cols, p, flag, e, keys);
    }
  }

  lemma LandsTogether(s: F.Standing, cols: seq<ColumnSpec>, p: Process, flag: string, e: Event, keys: set<Value>)
    requires Faithful(s, cols, p, flag, e.table, keys) && F.Ready(s, p.db, flag, e, keys) && !D.Skips(p.db, e)
    requires WellFormed(e) && Shaped(e) && Extends(flag, cols, e.change) && Step(p, flag, e).ok
    ensures TakenTogether(s, cols, End(p, Step(p, flag, e)), flag, e, keys)
  {
    hide Apply, F.Ready, WellFormed, Shaped, Extends, F.Matches, F.StampsAre, D.Skips;
    AppliesTogether(s, cols, p, flag, e, keys);
    TablesAfter(p, flag, e);
  }

  // --- a declaration that does not extend the columns in force ----------------------------------

  /** What the sink makes of it is not what the fold makes of it. */
  lemma MisfitShows(s: F.Standing, cols: seq<ColumnSpec>, p: Process, flag: string, e: Event, keys: set<Value>)
    requires Faithful(s, cols, p, flag, e.table, keys) && F.Ready(s, p.db, flag, e, keys) && flag != ""
    requires WellFormed(e) && Shaped(e) && !Extends(flag, cols, e.change) && Apply(p, flag, e).ok
    ensures Fold(s.view, e.change).Some? ==>
              !F.MatchesIn(Fold(s.view, e.change).value, End(p, Apply(p, flag, e)).db, flag, e.table)
  {
    assert e.table in p.db.tables <==> cols != [];
    if cols != [] {
      hide F.Matches, Ensure, Agree, Behind, Spelled, Creatable;
      CacheIsTrueIff(p, flag, e.table, e.change.columns);
      Unextended(p, flag, e.table, cols, e.change.columns);
      Headers(Fold(s.view, e.change).value, End(p, Apply(p, flag, e)).db, flag, e.table);
      assert Names(e.change.columns) != [];
    } else if e.change.IsRow() {
      hide F.Matches, F.StampsAre, Ensure, Binds;
      UnkeyedRow(p, flag, e);
    } else {
      hide F.Matches, F.StampsAre, Ensure;
      MadeFrom(p, flag, e.table, e.change.columns, true);
      Headers(Fold(s.view, e.change).value, End(p, Apply(p, flag, e)).db, flag, e.table);
    }
  }

  lemma Headers(v: View, db: D.Database, flag: string, table: string)
    requires table in db.tables
    ensures F.MatchesIn(v, db, flag, table) ==>
              db.tables[table].key == v.key && (v.columns == [] || v.columns == Names(db.tables[table].columns))
  {
  }

  lemma Unextended(p: Process, flag: string, table: string, got: seq<ColumnSpec>, cols: seq<ColumnSpec>)
    requires table in p.db.tables && p.db.tables[table].columns == got && Ensure(p, flag, table, cols, true).ok
    requires Names(cols) != Names(got) && !Behind(got, Spelled(cols), true)
    ensures |got| != |cols|
  {
    hide AffinityOf, Growth, Creatable, Behind, Agree;
    CatchUpIsEmptyIff(p.db, table, Spelled(cols), true);
    if |got| == |cols| {
      AgreeingNames(Spelled(cols), got);
    }
  }

  /** A row that made a table without the key column could not have been written. */
  lemma UnkeyedRow(p: Process, flag: string, e: Event)
    requires e.change.IsRow() && e.table !in p.db.tables && e.table !in p.columns && ApplyRow(p, flag, e).ok
    ensures flag in NamesIn(e.change)
  {
    var cols := Inferred(e.change.Image());
    assert Names(Spelled(cols)) == NamesIn(e.change);
    MadeFrom(p, flag, e.table, cols, false);
    KeyIsFlag(Spelled(cols), flag, e.change.Image(), Names(cols));
    hide Inferred, Spelled, Ensure, Binds, Made, PutOf;
  }

  // --- the whole feed -------------------------------------------------------------------------

  /** After the feed the destination, bookkeeping hidden, is the materialised table. */
  ghost predicate Shown(db: D.Database, flag: string, table: string, feed: seq<Event>) {
    var folded := FoldAll(NewView(flag), F.Changes(feed));
    folded.Some? && F.MatchesIn(folded.value, Outcome(Opened(db), flag, feed).0.db, flag, table)
  }

  /** A feed of one table in the source's order, landed whole by a process that found no such table. */
  ghost predicate Landed(db: D.Database, flag: string, table: string, feed: seq<Event>, keys: set<Value>) {
    && flag != "" && table !in db.tables && db.checkpoint == map[]
    && AllWellFormed(feed) && (forall e :: e in feed ==> Shaped(e))
    && F.Apart(keys) && F.SourceFeed(flag, table, feed, keys) && C.Ordered(feed)
    && Outcome(Opened(db), flag, feed).1
  }

  /** Where the fold stands after a feed. */
  function After(flag: string, feed: seq<Event>): F.Standing
    requires FoldAll(NewView(flag), F.Changes(feed)).Some?
  {
    F.Standing(FoldAll(NewView(flag), F.Changes(feed)).value, F.Shape(feed), F.Stamps(NewView(flag), feed))
  }

  ghost predicate Refined(db: D.Database, flag: string, table: string, feed: seq<Event>, keys: set<Value>) {
    && FoldAll(NewView(flag), F.Changes(feed)).Some?
    && Faithful(After(flag, feed), ColumnsOf(feed), Outcome(Opened(db), flag, feed).0, flag, table, keys)
    && C.CursorsKnown(Outcome(Opened(db), flag, feed).0.db, feed, |feed|)
  }

  lemma LandedBefore(db: D.Database, flag: string, table: string, feed: seq<Event>, keys: set<Value>)
    requires feed != [] && Landed(db, flag, table, feed, keys)
    ensures var init, e := feed[..|feed| - 1], feed[|feed| - 1]; var p := Outcome(Opened(db), flag, init).0;
            && Landed(db, flag, table, init, keys) && WellFormed(e) && Shaped(e) && e.table == table
            && Step(p, flag, e).ok && Outcome(Opened(db), flag, feed).0 == End(p, Step(p, flag, e))
  {
    hide Step, Outcome, WellFormed, Shaped, F.Newer, F.Consistent, F.Apart, C.Positioned, C.Follows;
    var init, e := feed[..|feed| - 1], feed[|feed| - 1];
    assert feed == init + [e];
    OutcomeSnoc(Opened(db), flag, init, e);
  }

  /** Where the two stand together, the next event is new to the cursors and one the source may send. */
  lemma NextIsReady(db: D.Database, flag: string, table: string, feed: seq<Event>, keys: set<Value>)
    requires feed != [] && Landed(db, flag, table, feed, keys) && Refined(db, flag, table, feed[..|feed| - 1], keys)
    ensures var init, e := feed[..|feed| - 1], feed[|feed| - 1]; var p := Outcome(Opened(db), flag, init).0;
            && F.Ready(After(flag, init), p.db, flag, e, keys) && !D.Skips(p.db, e)
            && FoldAll(NewView(flag), F.Changes(feed)) == Fold(After(flag, init).view, e.change)
  {
    hide Outcome, WellFormed, Shaped, F.Newer, F.Consistent, F.Apart, F.Holds, D.Skips, Fold;
    hide F.Shape, F.Stamps, ColumnsOf;
    var init, e := feed[..|feed| - 1], feed[|feed| - 1];
    F.ChangesSnoc(feed);
    var at := Outcome(Opened(db), flag, init).0.db;
    KnownInLonger(at, init, feed);
    C.NewIsNotSkipped(at, feed, |init|, |init|);
  }

  lemma KnownInLonger(db: D.Database, init: seq<Event>, feed: seq<Event>)
    requires |init| < |feed| && init == feed[..|init|] && C.CursorsKnown(db, init, |init|)
    ensures C.CursorsKnown(db, feed, |init|)
  {
    forall t | t in db.checkpoint
      ensures exists i :: C.CursorFrom(db, feed, |init|, t, i)
    {
      var i :| C.CursorFrom(db, init, |init|, t, i);
      assert C.CursorFrom(db, feed, |init|, t, i);
    }
  }

  lemma CursorsStayKnown(p: Process, flag: string, feed: seq<Event>)
    requires feed != [] && C.CursorsKnown(p.db, feed, |feed| - 1) && Step(p, flag, feed[|feed| - 1]).ok
    ensures C.CursorsKnown(End(p, Step(p, flag, feed[|feed| - 1])).db, feed, |feed|)
  {
    hide Apply;
    var n, m, e := |feed| - 1, |feed|, feed[|feed| - 1];
    var next := End(p, Step(p, flag, e)).db;
    ApplyKeepsCheckpoint(p, flag, e);
    forall t | t in next.checkpoint
      ensures exists i :: C.CursorFrom(next, feed, m, t, i)
    {
      if t in p.db.checkpoint && next.checkpoint[t] == p.db.checkpoint[t] {
        var i :| C.CursorFrom(p.db, feed, n, t, i);
        assert C.CursorFrom(next, feed, m, t, i);
      } else {
        assert C.CursorFrom(next, feed, m, t, n);
      }
    }
  }

  lemma {:induction false} ExtendingIsRefined(
    db: D.Database, flag: string, table: string, feed: seq<Event>, keys: set<Value>)
    requires Landed(db, flag, table, feed, keys) && AllExtend(flag, feed)
    ensures Refined(db, flag, table, feed, keys)
    decreases |feed|
  {
    if feed == [] {
      hide Refined, Outcome;
      RefinedAtStart(db, flag, table, keys);
    } else {
      hide Outcome, Landed, Refined, Extends, ColumnsOf;
      LandedBefore(db, flag, table, feed, keys);
      ExtendingIsRefined(db, flag, table, feed[..|feed| - 1], keys);
      RefinedNext(db, flag, table, feed, keys);
    }
  }

  lemma RefinedAtStart(db: D.Database, flag: string, table: string, keys: set<Value>)
    requires table !in db.tables && db.checkpoint == map[]
    ensures Refined(db, flag, table, [], keys)
  {
    OutcomeNil(Opened(db), flag);
  }

  lemma RefinedNext(db: D.Database, flag: string, table: string, feed: seq<Event>, keys: set<Value>)
    requires feed != [] && Landed(db, flag, table, feed, keys) && Refined(db, flag, table, feed[..|feed| - 1], keys)
    requires Extends(flag, ColumnsOf(feed[..|feed| - 1]), feed[|feed| - 1].change)
    ensures Refined(db, flag, table, feed, keys)
  {
    hide Outcome, Step, Landed, Extends, Faithful, F.Ready, D.Skips, WellFormed, Shaped, C.CursorsKnown;
    hide Fold, F.Changes;
    var init, e := feed[..|feed| - 1], feed[|feed| - 1];
    var p := Outcome(Opened(db), flag, init).0;
    LandedBefore(db, flag, table, feed, keys);
    NextIsReady(db, flag, table, feed, keys);
    LandsTogether(After(flag, init), ColumnsOf(init), p, flag, e, keys);
    KnownInLonger(p.db, init, feed);
    CursorsStayKnown(p, flag, feed);
    assert After(flag, feed) == Onward(After(flag, init), e);
  }

  lemma MisfitIsNotShown(db: D.Database, flag: string, table: string, feed: seq<Event>, keys: set<Value>)
    requires feed != [] && Landed(db, flag, table, feed, keys) && Refined(db, flag, table, feed[..|feed| - 1], keys)
    requires !Extends(flag, ColumnsOf(feed[..|feed| - 1]), feed[|feed| - 1].change)
    ensures !Shown(db, flag, table, feed)
  {
    hide Outcome, Landed, Extends, Faithful, F.Ready, D.Skips, WellFormed, Shaped, C.CursorsKnown;
    hide Fold, F.Changes, Apply;
    var init, e := feed[..|feed| - 1], feed[|feed| - 1];
    var p := Outcome(Opened(db), flag, init).0;
    LandedBefore(db, flag, table, feed, keys);
    NextIsReady(db, flag, table, feed, keys);
    assert flag != "" by { NamedFlag(db, flag, table, feed, keys); }
    MisfitShows(After(flag, init), ColumnsOf(init), p, flag, e, keys);
    TablesAfter(p, flag, e);
    SameTables(FoldAll(NewView(flag), F.Changes(feed)), D.Final(p.db, Apply(p, flag, e).states),
               End(p, Step(p, flag, e)).db, flag, table);
  }

  lemma NamedFlag(db: D.Database, flag: string, table: string, feed: seq<Event>, keys: set<Value>)
    requires Landed(db, flag, table, feed, keys)
    ensures flag != ""
  {
  }

  lemma SameTables(v: Option<View>, x: D.Database, y: D.Database, flag: string, table: string)
    requires x.tables == y.tables
    ensures v.Some? ==> (F.MatchesIn(v.value, x, flag, table) <==> F.MatchesIn(v.value, y, flag, table))
  {
    hide F.Matches;
  }

  /** The first declaration that does not extend the columns in force shows. */
  lemma {:induction false} SomePrefixIsNotShown(
    db: D.Database, flag: string, table: string, feed: seq<Event>, keys: set<Value>) returns (n: nat)
    requires Landed(db, flag, table, feed, keys) && !AllExtend(flag, feed)
    ensures n <= |feed| && !Shown(db, flag, table, feed[..n])
    decreases |feed|
  {
    hide Outcome, Landed, Refined, Extends, ColumnsOf, Shown;
    var init := feed[..|feed| - 1];
    LandedBefore(db, flag, table, feed, keys);
    if AllExtend(flag, init) {
      ExtendingIsRefined(db, flag, table, init, keys);
      MisfitIsNotShown(db, flag, table, feed, keys);
      n := |feed|;
      assert feed[..n] == feed;
    } else {
      n := SomePrefixIsNotShown(db, flag, table, init, keys);
      assert feed[..n] == init[..n];
    }
  }

  lemma RefinedIsShown(db: D.Database, flag: string, table: string, feed: seq<Event>, keys: set<Value>)
    requires Refined(db, flag, table, feed, keys)
    ensures Shown(db, flag, table, feed)
  {
    hide Outcome, ColumnsOf, F.Changes, F.Matches, F.StampsAre, FoldAll;
  }

  lemma {:induction false} EveryPrefixIsShown(
    db: D.Database, flag: string, table: string, feed: seq<Event>, keys: set<Value>, n: nat)
    requires Landed(db, flag, table, feed, keys) && AllExtend(flag, feed) && n <= |feed|
    ensures Shown(db, flag, table, feed[..n])
    decreases |feed|
  {
    hide Outcome, Landed, Extends, ColumnsOf, Shown, Refined;
    if n == |feed| {
      assert feed[..n] == feed;
      ExtendingIsRefined(db, flag, table, feed, keys);
      RefinedIsShown(db, flag, table, feed, keys);
    } else {
      var init := feed[..|feed| - 1];
      LandedBefore(db, flag, table, feed, keys);
      EveryPrefixIsShown(db, flag, table, init, keys, n);
      assert feed[..n] == init[..n];
    }
  }

  /**
   The SQLite sink refines the naive fold after every event of such a feed exactly when each declaration
   extends the columns in force: one that leaves a column out, or names them anew, is accepted, and from
   there the destination has columns the table does not.
   */
  lemma SinkRefinesFoldIff(db: D.Database, flag: string, table: string, feed: seq<Event>, keys: set<Value>)
    requires Landed(db, flag, table, feed, keys)
    ensures (forall n: nat | n <= |feed| :: Shown(db, flag, table, feed[..n])) <==> AllExtend(flag, feed)
  {
    hide Landed, Shown, AllExtend;
    if AllExtend(flag, feed) {
      forall n: nat | n <= |feed|
        ensures Shown(db, flag, table, feed[..n])
      {
        EveryPrefixIsShown(db, flag, table, feed, keys, n);
      }
    } else {
      var n := SomePrefixIsNotShown(db, flag, table, feed, keys);
    }
  }

  // --- a declaration that leaves a column out ---------------------------------------------------

  const THREE := [ColumnSpec("id", "INTEGER"), ColumnSpec("a", "INTEGER"), ColumnSpec("b", "INTEGER")]
  const TWO := [ColumnSpec("id", "INTEGER"), ColumnSpec("a", "INTEGER")]

  const BEFORE: Row := map["id" := Number("1"), "a" := Number("5")]
  const AFTER: Row := map["id" := Number("1"), "a" := Number("6")]

  /** A table declared with three columns and a row, declared again with two, and the row updated. */
  const SHRUNK := [
    Event("t", CreateTable(THREE), 1, 1, 2, None),
    Event("t", Insert(map["id" := Number("1"), "a" := Number("5"), "b" := Number("7")]), 5, 5, 6, None),
    Event("t", CreateTable(TWO), 6, 6, 7, None),
    Event("t", Update(BEFORE, AFTER), 8, 8, 9, None)
  ]

  /** The row the destination holds, by the value of `a` and the stamp. */
  function RowWith(a: string, stamp: Stamp): DestRow {
    DestRow(map["id" := Number("1"), "a" := Number(a), "b" := Number("7")], stamp, false, None, false)
  }

  function Holding(rows: map<Value, DestRow>, checkpoint: map<string, Stamp>, cached: seq<string>): Process {
    Process(D.Database(map["t" := Table(THREE, "id", rows)], checkpoint), map["t" := cached])
  }

  lemma Spellings()
    ensures Spelled(THREE) == THREE && Spelled(TWO) == TWO && Creatable(Names(THREE))
    ensures Names(THREE) == ["id", "a", "b"] && Names(TWO) == ["id", "a"]
    ensures "id" in Names(THREE) && "id" in Names(TWO) && "a" in Names(TWO) && "b" !in Names(TWO)
    ensures "a" in Names(THREE) && "b" in Names(THREE)
  {
    assert Names(THREE)[0] == "id" && Names(THREE)[1] == "a" && Names(THREE)[2] == "b";
    assert Names(TWO)[0] == "id" && Names(TWO)[1] == "a";
    ThreeIsCreatable();
    hide Creatable;
  }

  lemma ThreeIsCreatable()
    ensures Creatable(["id", "a", "b"])
  {
  }

  lemma ShrunkDeclares()
    ensures var p := Opened(D.Database(map[], map[])); var step := Step(p, "id", SHRUNK[0]);
            step.ok && End(p, step) == Holding(map[], map[], Names(THREE))
  {
    Spellings();
    hide Creatable;
  }

  /** A row of a cached table that takes it. */
  lemma CachedPut(p: Process, t: Table, cached: seq<string>, e: Event)
    requires e.change.IsRow() && !D.Skips(p.db, e) && Binds(t, cached, e.change.Image())
    requires e.table in p.columns && p.columns[e.table] == cached && p.db.tables == map[e.table := t]
    ensures var step := Step(p, "id", e);
            && step.ok && step.columns == p.columns
            && End(p, step).db.tables == map[e.table := Exec(t, PutOf(t, cached, e))]
  {
    var u := Exec(t, PutOf(t, cached, e));
    hide Binds, PutOf, D.Skips, Exec;
    assert map[e.table := t][e.table := u] == map[e.table := u];
    TablesAfter(p, "id", e);
  }

  /** The row as each of the two caches binds it. */
  predicate Gives(rows: map<Value, DestRow>, cached: seq<string>, row: Row, a: string) {
    && "id" in row && row["id"] == Number("1") && "a" in row && row["a"] == Number(a)
    && (cached == Names(THREE) ==> "b" in row && row["b"] == Number("7"))
    && (cached == Names(TWO) ==>
          Number("1") in rows && "b" in rows[Number("1")].cells && rows[Number("1")].cells["b"] == Number("7"))
  }

  lemma ShrunkCells(rows: map<Value, DestRow>, cached: seq<string>, e: Event, a: string)
    requires e.change.IsRow() && (cached == Names(THREE) || cached == Names(TWO))
    requires Gives(rows, cached, e.change.Image(), a)
    ensures Binds(Table(THREE, "id", rows), cached, e.change.Image())
    ensures PutOf(Table(THREE, "id", rows), cached, e).cells == RowWith(a, D.StampOf(e)).cells
  {
    Spellings();
    hide Spelled, Creatable;
  }

  lemma ShrunkPut(rows: map<Value, DestRow>, checkpoint: map<string, Stamp>, cached: seq<string>, e: Event, a: string)
    requires e.table == "t" && e.writer == None && (cached == Names(THREE) || cached == Names(TWO))
    requires (e.change.Insert? || e.change.Update?) && !D.Skips(Holding(rows, checkpoint, cached).db, e)
    requires Gives(rows, cached, e.change.Image(), a)
    requires Number("1") in rows ==> Above(D.StampOf(e), rows[Number("1")].stamp)
    ensures var p := Holding(rows, checkpoint, cached); var step := Step(p, "id", e);
            && step.ok && step.columns == p.columns
            && End(p, step).db.tables ==
               map["t" := Table(THREE, "id", rows[Number("1") := RowWith(a, D.StampOf(e))])]
  {
    ShrunkCells(rows, cached, e, a);
    CachedPut(Holding(rows, checkpoint, cached), Table(THREE, "id", rows), cached, e);
    hide Step, Binds, D.StampOf, D.Skips, Names;
  }

  lemma ShrunkRedeclares(rows: map<Value, DestRow>, checkpoint: map<string, Stamp>)
    ensures var p := Holding(rows, checkpoint, Names(THREE)); var step := Step(p, "id", SHRUNK[2]);
            step.ok && End(p, step) == Holding(rows, checkpoint, Names(TWO))
  {
    Spellings();
    TwoAgrees();
    hide Agree, Behind, Spelled, Creatable, Names;
  }

  lemma TwoAgrees()
    ensures Agree(TWO, THREE) && !Behind(THREE, TWO, true)
  {
    assert AffinityOf("INTEGER") == IntegerAffinity;
    hide AffinityOf;
  }

  /** What the naive fold makes of it: the row as last imaged, with no column `b`. */
  lemma ShrunkFolds()
    ensures var v := View("id", ["id", "a"], map["1" := AFTER]);
            FoldAll(NewView("id"), F.Changes(SHRUNK)) == Some(v)
  {
    Spellings();
    var cs := F.Changes(SHRUNK);
    var first: Row := map["id" := Number("1"), "a" := Number("5"), "b" := Number("7")];
    var v1, v2 := View("id", Names(THREE), map[]), View("id", Names(THREE), map["1" := first]);
    var v3 := v2.(columns := Names(TWO));
    assert Print(Number("1")) == "1";
    assert cs[..0] == [] && cs[..1][..0] == [] && cs[..2][..1] == cs[..1] && cs[..3][..2] == cs[..2];
    assert cs[..4] == cs && cs[..4][..3] == cs[..3];
    assert FoldAll(NewView("id"), cs[..1]) == Some(v1);
    assert FoldAll(NewView("id"), cs[..2]) == Some(v2);
    assert FoldAll(NewView("id"), cs[..3]) == Some(v3);
    assert v3.rows["1" := AFTER] == map["1" := AFTER];
  }

  /**
   All four events succeed. The destination's row still has 7 in the column the table was declared
   without, and the materialised table has no such column.
   */
  lemma ShrunkKeepsColumn()
    ensures var empty := D.Database(map[], map[]); var end := Outcome(Opened(empty), "id", SHRUNK);
            && end.1
            && end.0.db.tables == map["t" := Table(THREE, "id", map[Number("1") := RowWith("6", Stamp(8, 8))])]
            && !Shown(empty, "id", "t", SHRUNK)
  {
    var empty := D.Database(map[], map[]);
    var p0 := Opened(empty);
    var p1 := Holding(map[], map[], Names(THREE));
    var rows := map[Number("1") := RowWith("5", Stamp(5, 5))];
    var at := map["t" := Stamp(5, 5)];
    var p2, p3 := Holding(rows, at, Names(THREE)), Holding(rows, at, Names(TWO));
    ShrunkDeclares();
    ShrunkInserts();
    ShrunkRedeclares(rows, map["t" := Stamp(5, 5)]);
    ShrunkUpdates();
    hide Step, Outcome, Holding, Shown;
    FourSteps(p0, p1, p2, p3, SHRUNK);
    var p4 := End(p3, Step(p3, "id", SHRUNK[3]));
    ShrunkDiffers(empty, p4.db);
  }

  lemma ShrunkInserts()
    ensures var p := Holding(map[], map[], Names(THREE)); var step := Step(p, "id", SHRUNK[1]);
            && step.ok
            && End(p, step) ==
               Holding(map[Number("1") := RowWith("5", Stamp(5, 5))], map["t" := Stamp(5, 5)], Names(THREE))
  {
    ShrunkPut(map[], map[], Names(THREE), SHRUNK[1], "5");
    var p, e := Holding(map[], map[], Names(THREE)), SHRUNK[1];
    hide RowWith, Names;
    ApplyKeepsCheckpoint(p, "id", e);
    hide Apply;
  }

  lemma ShrunkUpdates()
    ensures var rows := map[Number("1") := RowWith("5", Stamp(5, 5))];
            var p := Holding(rows, map["t" := Stamp(5, 5)], Names(TWO)); var step := Step(p, "id", SHRUNK[3]);
            && step.ok
            && End(p, step).db.tables ==
               map["t" := Table(THREE, "id", map[Number("1") := RowWith("6", Stamp(8, 8))])]
  {
    var rows := map[Number("1") := RowWith("5", Stamp(5, 5))];
    hide Step, Names, Exec, Outcome;
    assert Gives(rows, Names(TWO), SHRUNK[3].change.Image(), "6") by { Spellings(); }
    ShrunkPut(rows, map["t" := Stamp(5, 5)], Names(TWO), SHRUNK[3], "6");
    Replaced(rows, Number("1"), RowWith("6", Stamp(8, 8)));
  }

  lemma Replaced(rows: map<Value, DestRow>, k: Value, r: DestRow)
    requires rows.Keys == {k}
    ensures rows[k := r] == map[k := r]
  {
  }

  lemma FourSteps(p0: Process, p1: Process, p2: Process, p3: Process, feed: seq<Event>)
    requires |feed| == 4
    requires End(p0, Step(p0, "id", feed[0])) == p1 && Step(p0, "id", feed[0]).ok
    requires End(p1, Step(p1, "id", feed[1])) == p2 && Step(p1, "id", feed[1]).ok
    requires End(p2, Step(p2, "id", feed[2])) == p3 && Step(p2, "id", feed[2]).ok
    ensures Outcome(p0, "id", feed) == (End(p3, Step(p3, "id", feed[3])), Step(p3, "id", feed[3]).ok)
  {
    hide Step, Outcome;
    OutcomeNil(p0, "id");
    var a, b := [] + [feed[0]], [] + [feed[0]] + [feed[1]];
    assert feed == (b + [feed[2]]) + [feed[3]];
    OutcomeSnoc(p0, "id", [], feed[0]);
    OutcomeSnoc(p0, "id", a, feed[1]);
    OutcomeSnoc(p0, "id", b, feed[2]);
    OutcomeSnoc(p0, "id", b + [feed[2]], feed[3]);
  }

  lemma ShrunkDiffers(empty: D.Database, db: D.Database)
    requires "t" in db.tables && db.tables["t"].columns == THREE && Outcome(Opened(empty), "id", SHRUNK).0.db == db
    ensures !Shown(empty, "id", "t", SHRUNK)
  {
    ShrunkFolds();
    Spellings();
    hide Outcome;
    assert |Names(THREE)| == 3;
  }
}
