/**
 The stamped, tombstoned destination against the plain materialised table: hide the tombstones and
 the bookkeeping, read a missing column as NULL, and the two are the same map.
 */
module Refinement {
  import opened Feed
  import opened Destination
  import opened DuckSpec
  import opened TableFold
  import opened Replay
  import opened CursorPath
  import Strings

  function Changes(feed: seq<Event>): (r: seq<Change>)
    ensures |r| == |feed|
  {
    seq(|feed|, i requires 0 <= i < |feed| => feed[i].change)
  }

  /** A destination row shows an image: every column it has, NULL where the image is silent. */
  ghost predicate Shows(cells: Row, row: Row) {
    && row.Keys <= cells.Keys
    && forall c :: c in cells ==> cells[c] == if c in row then row[c] else Null
  }

  /** A held row against the map: absent when tombstoned, shown when live. */
  ghost predicate RowMatches(v: View, names: seq<string>, k: Value, r: DestRow) {
    && (forall c :: c in r.cells <==> c in names)
    && (r.deleted ==> Print(k) !in v.rows)
    && (!r.deleted ==> Print(k) in v.rows && Shows(r.cells, v.rows[Print(k)]))
  }

  ghost predicate Live(t: Table, p: string, k: Value) {
    k in t.rows && !t.rows[k].deleted && Print(k) == p
  }

  /**
   The destination, bookkeeping hidden, is exactly the materialised table: the same rows, and the same
   columns once any were declared. Until then the destination has the first row's.
   */
  ghost predicate Matches(v: View, t: Table) {
    && t.key == v.key
    && (v.columns == [] || v.columns == Names(t.columns))
    && (forall k :: k in t.rows ==> RowMatches(v, Names(t.columns), k, t.rows[k]))
    && (forall p :: p in v.rows ==> exists k :: Live(t, p, k))
  }

  /** Before the table is created there is nothing on either side. */
  ghost predicate MatchesIn(v: View, db: Database, flag: string, table: string) {
    if table in db.tables then Matches(v, db.tables[table]) else v == NewView(flag)
  }

  // --- what the source promises of its feed ---------------------------------------------------

  /** The columns in force after an event: the last shape declared, or the first row's until there is one. */
  function ShapeAfter(shape: seq<string>, c: Change): seq<string> {
    match c
    case CreateTable(columns) => Names(columns)
    case AddColumn(columns, _) => Names(columns)
    case RenameColumn(columns, _, _) => Names(columns)
    case AlterColumnType(columns, _, _, _) => Names(columns)
    case DropTable => []
    case _ => if shape == [] then Strings.Sorted(c.Image().Keys) else shape
  }

  function Shape(feed: seq<Event>): seq<string> {
    if feed == [] then [] else ShapeAfter(Shape(feed[..|feed| - 1]), feed[|feed| - 1].change)
  }

  /** An event fits the shape in force: images inside it, and a shape change that says what it did. */
  ghost predicate Consistent(shape: seq<string>, c: Change) {
    match c
    case CreateTable(_) => true
    case AddColumn(columns, column) => column !in shape && Names(columns) == shape + [column]
    case RenameColumn(columns, from, to) =>
      && from in shape && to !in shape
      && Names(columns) == seq(|shape|, i requires 0 <= i < |shape| => Swap(shape[i], from, to))
    case DropTable => false
    case AlterColumnType(_, _, _, _) => false
    case _ => shape == [] || forall n :: n in c.Image() ==> n in shape
  }

  /** Distinct keys print differently, as the values of one typed column do. */
  ghost predicate Apart(keys: set<Value>) {
    forall k, k' :: k in keys && k' in keys && Print(k) == Print(k') ==> k == k'
  }

  /** The stamp each key was last delivered at. */
  function Stamps(v: View, feed: seq<Event>): map<Value, Stamp> {
    if feed == [] then map[]
    else
      var init, e := feed[..|feed| - 1], feed[|feed| - 1];
      match FoldAll(v, Changes(init))
      case None => Stamps(v, init)
      case Some(w) =>
        if e.change.IsRow() && w.key in e.change.Image()
        then Stamps(v, init)[e.change.Image()[w.key] := StampOf(e)]
        else Stamps(v, init)
  }

  ghost predicate Newer(w: View, stamps: map<Value, Stamp>, e: Event, keys: set<Value>) {
    e.change.IsRow() && w.key in e.change.Image() ==>
      var k := e.change.Image()[w.key];
      k in keys && (k in stamps ==> Above(StampOf(e), stamps[k]))
  }

  /** A single-table feed in the source's order: shapes consistent, stamps strictly increasing per key. */
  ghost predicate SourceFeed(flag: string, table: string, feed: seq<Event>, keys: set<Value>) {
    feed == [] || (
      var init, e := feed[..|feed| - 1], feed[|feed| - 1];
      && SourceFeed(flag, table, init, keys)
      && e.table == table
      && match FoldAll(NewView(flag), Changes(init))
         case None => true
         case Some(w) => Consistent(Shape(init), e.change) && Newer(w, Stamps(NewView(flag), init), e, keys))
  }

  // --- one event ------------------------------------------------------------------------------

  ghost predicate StampsAre(t: Table, stamps: map<Value, Stamp>) {
    t.rows.Keys == stamps.Keys && forall k :: k in t.rows.Keys ==> t.rows[k].stamp == stamps[k]
  }

  lemma LiveAfterPut(t: Table, u: Table, k: Value, r: DestRow, p: string)
    requires u == t.(rows := t.rows[k := r]) && p != Print(k) && exists x :: Live(t, p, x)
    ensures exists x :: Live(u, p, x)
  {
    var x :| Live(t, p, x);
    assert Live(u, p, x);
  }

  /** Writing one key on both sides keeps them the same, tombstone or image. */
  lemma RowCore(v: View, t: Table, k: Value, row: Row, r: DestRow, keys: set<Value>)
    requires Matches(v, t) && Apart(keys) && t.rows.Keys <= keys && k in keys
    requires Shows(r.cells, row) && forall c :: c in r.cells <==> c in Names(t.columns)
    ensures Matches(v.(rows := if r.deleted then v.rows - {Print(k)} else v.rows[Print(k) := row]),
                    t.(rows := t.rows[k := r]))
  {
    hide Shows, Apart;
    var w := v.(rows := if r.deleted then v.rows - {Print(k)} else v.rows[Print(k) := row]);
    var u := t.(rows := t.rows[k := r]);
    forall x | x in u.rows
      ensures RowMatches(w, Names(u.columns), x, u.rows[x])
    {
      if x != k {
        assert RowMatches(v, Names(t.columns), x, t.rows[x]);
        PrintsApart(keys, x, k);
      }
    }
    forall p | p in w.rows
      ensures exists x :: Live(u, p, x)
    {
      if p == Print(k) {
        assert Live(u, p, k);
      } else {
        LiveAfterPut(t, u, k, r, p);
      }
    }
  }

  lemma RowStep(v: View, t: Table, e: Event, keys: set<Value>, stamps: map<Value, Stamp>)
    requires e.change.IsRow() && Matches(v, t) && NamesRow(t, e.change.Image())
    requires forall n :: n in e.change.Image() ==> n in Names(t.columns)
    requires Apart(keys) && t.rows.Keys <= keys && StampsAre(t, stamps) && Newer(v, stamps, e, keys)
    ensures Fold(v, e.change).Some?
    ensures var u, k := Exec(t, PutOf(t, e)), e.change.Image()[v.key];
            Matches(Fold(v, e.change).value, u) && StampsAre(u, stamps[k := StampOf(e)]) && u.rows.Keys <= keys
  {
    hide Apart, StampsAre, Newer, Cells, Matches;
    var row := e.change.Image();
    SameHeader(v, t);
    PutAccepted(v, t, e, keys, stamps);
    CellsShow(t.columns, row);
    RowCore(v, t, row[v.key], row, DestRow(Cells(t.columns, row), StampOf(e), e.change.Delete?, e.writer, false), keys);
  }

  lemma SameHeader(v: View, t: Table)
    requires Matches(v, t)
    ensures t.key == v.key && (v.columns == [] || v.columns == Names(t.columns))
  {
  }

  lemma PutAccepted(v: View, t: Table, e: Event, keys: set<Value>, stamps: map<Value, Stamp>)
    requires e.change.IsRow() && t.key == v.key && NamesRow(t, e.change.Image())
    requires t.rows.Keys <= keys && StampsAre(t, stamps) && Newer(v, stamps, e, keys)
    ensures Accepts(t, PutOf(t, e)) && e.change.Image()[v.key] in keys
    ensures var u := Exec(t, PutOf(t, e));
            StampsAre(u, stamps[e.change.Image()[v.key] := StampOf(e)]) && u.rows.Keys <= keys
  {
  }

  lemma PrintsApart(keys: set<Value>, a: Value, b: Value)
    requires Apart(keys) && a in keys && b in keys && a != b
    ensures Print(a) != Print(b)
  {
  }

  lemma CellsShow(columns: seq<ColumnSpec>, row: Row)
    requires forall n :: n in row ==> n in Names(columns)
    ensures Shows(Cells(columns, row), row)
    ensures forall c :: c in Cells(columns, row) <==> c in Names(columns)
  {
  }

  /** A statement that neither adds rows nor moves tombstones keeps every live key live. */
  lemma LiveKept(v: View, t: Table, s: Statement)
    requires Matches(v, t) && s.IsSchema()
    ensures forall p :: p in v.rows ==> exists k :: Live(Exec(t, s), p, k)
  {
    hide Carry, ColumnsAfter;
    forall p | p in v.rows
      ensures exists k :: Live(Exec(t, s), p, k)
    {
      var k :| Live(t, p, k);
      assert Live(Exec(t, s), p, k);
    }
  }

  lemma AddStep(v: View, t: Table, c: Change, typ: string)
    requires c.AddColumn? && Matches(v, t) && Consistent(Names(t.columns), c)
    ensures Matches(Fold(v, c).value, Exec(t, Add(ColumnSpec(c.column, typ))))
  {
    AddCore(v.(columns := []), t, ColumnSpec(c.column, typ));
    assert Names(Exec(t, Add(ColumnSpec(c.column, typ))).columns) == Names(t.columns) + [c.column];
    SameRows(v.(columns := []), Fold(v, c).value, Exec(t, Add(ColumnSpec(c.column, typ))));
  }

  /** A further column, NULL in every row, says nothing that an image does not. */
  lemma AddCore(v: View, t: Table, c: ColumnSpec)
    requires v.columns == [] && Matches(v, t) && c.name !in Names(t.columns)
    ensures Matches(v, Exec(t, Add(c)))
  {
    var add := Add(c);
    LiveKept(v, t, add);
    assert Names(Exec(t, add).columns) == Names(t.columns) + [c.name];
    forall k | k in t.rows
      ensures RowMatches(v, Names(Exec(t, add).columns), k, RowAfter(t.rows[k], add))
    {
      assert RowMatches(v, Names(t.columns), k, t.rows[k]);
    }
  }

  lemma SameRows(v: View, w: View, t: Table)
    requires Matches(v, t) && w.rows == v.rows && w.key == v.key && (w.columns == [] || w.columns == Names(t.columns))
    ensures Matches(w, t)
  {
    hide Shows;
    forall k | k in t.rows
      ensures RowMatches(w, Names(t.columns), k, t.rows[k])
    {
      assert RowMatches(v, Names(t.columns), k, t.rows[k]);
    }
  }

  lemma RenamedShows(cells: Row, row: Row, from: string, to: string)
    requires Shows(cells, row) && from in cells && to !in cells
    ensures Shows(RenameCell(cells, from, to), MoveIn(row, from, to))
  {
  }

  lemma RenamedRow(v: View, names: seq<string>, k: Value, r: DestRow, c: Change)
    requires c.RenameColumn? && c.from != "" && c.to != "" && Consistent(names, c) && RowMatches(v, names, k, r)
    ensures RowMatches(Fold(v, c).value, Names(c.columns), k, RowAfter(r, Rename(c.from, c.to)))
  {
    hide RenameCell, MoveIn, Shows;
    RenamedKeys(r.cells, names, Names(c.columns), c.from, c.to);
    if !r.deleted {
      RenamedShows(r.cells, v.rows[Print(k)], c.from, c.to);
    }
  }

  lemma RenameStepMatches(v: View, t: Table, c: Change)
    requires c.RenameColumn? && c.from != "" && c.to != "" && Matches(v, t) && Consistent(Names(t.columns), c)
    ensures Matches(Fold(v, c).value, Exec(t, Rename(c.from, c.to)))
  {
    hide RowMatches, RowAfter, MoveIn;
    LiveKept(v, t, Rename(c.from, c.to));
    RenamedNames(t.columns, c.from, c.to);
    forall k | k in t.rows
      ensures RowMatches(Fold(v, c).value, Names(c.columns), k, RowAfter(t.rows[k], Rename(c.from, c.to)))
    {
      RenamedRow(v, Names(t.columns), k, t.rows[k], c);
    }
  }

  lemma RenamedNames(columns: seq<ColumnSpec>, from: string, to: string)
    ensures Names(ColumnsAfter(columns, Rename(from, to))) ==
            seq(|columns|, i requires 0 <= i < |columns| => Swap(Names(columns)[i], from, to))
  {
  }

  lemma RenamedKeys(cells: Row, before: seq<string>, after: seq<string>, from: string, to: string)
    requires forall c :: c in cells <==> c in before
    requires from in before && to !in before
    requires after == seq(|before|, i requires 0 <= i < |before| => Swap(before[i], from, to))
    ensures forall c :: c in RenameCell(cells, from, to) <==> c in after
  {
    forall c | c in RenameCell(cells, from, to)
      ensures c in after
    {
      var was := if c == to then from else c;
      var i :| 0 <= i < |before| && before[i] == was;
      assert after[i] == c;
    }
    forall c | c in after
      ensures c in RenameCell(cells, from, to)
    {
      var i :| 0 <= i < |after| && after[i] == c;
      assert before[i] in before;
    }
  }

  // --- one event against the database ---------------------------------------------------------

  ghost predicate StampsIn(db: Database, table: string, stamps: map<Value, Stamp>, keys: set<Value>) {
    if table in db.tables then StampsAre(db.tables[table], stamps) && db.tables[table].rows.Keys <= keys
    else stamps == map[]
  }

  function NextStamps(w: View, stamps: map<Value, Stamp>, e: Event): map<Value, Stamp> {
    if e.change.IsRow() && w.key in e.change.Image() then stamps[e.change.Image()[w.key] := StampOf(e)] else stamps
  }

  /** The destination's columns are the shape in force. */
  ghost predicate InForce(shape: seq<string>, db: Database, table: string) {
    if table in db.tables then shape == Names(db.tables[table].columns) != [] else shape == []
  }

  /** What both sides have come to: the table, its columns, and the stamps of its rows. */
  datatype Standing = Standing(view: View, shape: seq<string>, stamps: map<Value, Stamp>)

  ghost predicate Holds(s: Standing, db: Database, flag: string, table: string, keys: set<Value>) {
    MatchesIn(s.view, db, flag, table) && InForce(s.shape, db, table) && StampsIn(db, table, s.stamps, keys)
  }

  /** Where both sides stand together, and the event is one the source may send there. */
  ghost predicate Ready(s: Standing, db: Database, flag: string, e: Event, keys: set<Value>) {
    && Apart(keys) && Holds(s, db, flag, e.table, keys)
    && Consistent(s.shape, e.change) && Newer(s.view, s.stamps, e, keys)
  }

  /** Both sides took the event and stand together again. */
  ghost predicate Together(s: Standing, next: Database, flag: string, e: Event, keys: set<Value>) {
    && Fold(s.view, e.change).Some?
    && Holds(Standing(Fold(s.view, e.change).value, ShapeAfter(s.shape, e.change), NextStamps(s.view, s.stamps, e)),
             next, flag, e.table, keys)
  }

  /** A row of a table that is there. */
  lemma RowInTable(s: Standing, db: Database, flag: string, e: Event, keys: set<Value>)
    requires e.change.IsRow() && e.table in db.tables && Apart(keys) && Holds(s, db, flag, e.table, keys)
    requires Newer(s.view, s.stamps, e, keys) && NamesRow(db.tables[e.table], e.change.Image())
    requires forall n :: n in e.change.Image() ==> n in Names(db.tables[e.table].columns)
    ensures Together(s, ExecIn(db, e.table, PutOf(db.tables[e.table], e)), flag, e, keys)
  {
    var t := db.tables[e.table];
    SameHeader(s.view, t);
    RowStep(s.view, t, e, keys, s.stamps);
    PutKeepsColumns(t, e);
    hide Matches, Exec, PutOf, StampsAre, Apart, Newer;
  }

  lemma PutKeepsColumns(t: Table, e: Event)
    requires e.change.IsRow() && t.key in e.change.Image()
    ensures Exec(t, PutOf(t, e)).columns == t.columns
  {
  }

  /** The first row of a table nobody declared makes it, with the row's own columns. */
  lemma FirstRowMakes(s: Standing, db: Database, flag: string, e: Event, keys: set<Value>)
    requires e.change.IsRow() && e.table !in db.tables && Holds(s, db, flag, e.table, keys)
    requires Ensure(db, flag, e.table, InferredColumns(e.change.Image())).ok
    ensures var made := Final(db, Ensure(db, flag, e.table, InferredColumns(e.change.Image())).states);
            && e.table in made.tables && Names(made.tables[e.table].columns) == Strings.Sorted(e.change.Image().Keys)
            && Holds(s.(shape := Strings.Sorted(e.change.Image().Keys)), made, flag, e.table, keys)
  {
    var columns := InferredColumns(e.change.Image());
    assert Names(columns) == Strings.Sorted(e.change.Image().Keys);
    hide InferredColumns, Strings.Sorted, Ensure, Matches;
    Creates(db, flag, e.table, columns);
    EmptyMatches(flag, columns);
    NoStamps(Table(columns, flag, map[]));
  }

  lemma Creates(db: Database, flag: string, table: string, columns: seq<ColumnSpec>)
    requires table !in db.tables && Ensure(db, flag, table, columns).ok
    ensures columns != []
    ensures Final(db, Ensure(db, flag, table, columns).states) == Create(db, table, columns, flag)
  {
    hide Growth;
    assert columns[|columns|..] == [];
    NothingMissing(Create(db, table, columns, flag), table);
  }

  lemma EmptyMatches(flag: string, columns: seq<ColumnSpec>)
    ensures Matches(NewView(flag), Table(columns, flag, map[]))
  {
  }

  lemma NothingMissing(db: Database, table: string)
    requires table in db.tables
    ensures Growth(db, table, []) == []
  {
  }

  lemma RowInDb(s: Standing, db: Database, flag: string, e: Event, keys: set<Value>)
    requires Ready(s, db, flag, e, keys) && e.change.IsRow() && ApplyRow(db, flag, e).ok
    ensures Together(s, Final(db, ApplyRow(db, flag, e).states), flag, e, keys)
  {
    hide Matches, Exec, PutOf, Apart, Newer, StampsAre, Ensure, InferredColumns;
    if e.table in db.tables {
      RowInTable(s, db, flag, e, keys);
    } else {
      FirstRowMakes(s, db, flag, e, keys);
      var made := Final(db, Ensure(db, flag, e.table, InferredColumns(e.change.Image())).states);
      var shape := Strings.Sorted(e.change.Image().Keys);
      RowInTable(s.(shape := shape), made, flag, e, keys);
    }
  }

  /** A declaration of a table not there yet creates it, empty on both sides. */
  lemma FreshTable(v: View, db: Database, flag: string, table: string, columns: seq<ColumnSpec>)
    requires table !in db.tables && v == NewView(flag)
    requires Ensure(db, flag, table, DuckColumns(columns)).ok
    ensures var next := Final(db, Ensure(db, flag, table, DuckColumns(columns)).states);
            && MatchesIn(v.(columns := Names(columns)), next, flag, table) && table in next.tables
            && next.tables[table].rows == map[] && Names(next.tables[table].columns) == Names(columns) != []
  {
    hide Growth;
    var duck := DuckColumns(columns);
    assert duck[|duck|..] == [] && Names(duck) == Names(columns);
    NothingMissing(Create(db, table, duck, flag), table);
  }

  /** Catching a table up with a declaration adds columns that no image held so far mentions. */
  lemma {:induction false} GrowthMatches(
    v: View, db: Database, table: string, missing: seq<ColumnSpec>, stamps: map<Value, Stamp>)
    requires table in db.tables && StampsAre(db.tables[table], stamps)
    requires v.columns == [] && Matches(v, db.tables[table])
    requires Distinct(Names(db.tables[table].columns + missing))
    ensures var next := Final(db, Growth(db, table, missing));
            && table in next.tables && Matches(v, next.tables[table]) && StampsAre(next.tables[table], stamps)
            && next.tables[table].columns == db.tables[table].columns + missing
            && next.tables[table].rows.Keys == db.tables[table].rows.Keys
    decreases |missing|
  {
    hide Matches, StampsAre, Carry;
    var t := db.tables[table];
    if missing == [] {
      assert t.columns + missing == t.columns;
    } else {
      var c, all := missing[0], Names(t.columns + missing);
      assert all[|t.columns|] == c.name && forall i :: 0 <= i < |t.columns| ==> all[i] == Names(t.columns)[i];
      AddCore(v, t, c);
      SchemaKeepsStamps(t, Add(c), stamps);
      assert (t.columns + [c]) + missing[1..] == t.columns + missing;
      GrowthMatches(v, ExecIn(db, table, Add(c)), table, missing[1..], stamps);
    }
  }

  lemma CaughtUpMatches(
    v: View, db: Database, flag: string, table: string, columns: seq<ColumnSpec>, stamps: map<Value, Stamp>)
    requires table in db.tables && Matches(v, db.tables[table]) && StampsAre(db.tables[table], stamps)
    requires Ensure(db, flag, table, DuckColumns(columns)).ok
    ensures var next := Final(db, Ensure(db, flag, table, DuckColumns(columns)).states);
            && table in next.tables && Matches(v.(columns := Names(columns)), next.tables[table])
            && StampsAre(next.tables[table], stamps) && Names(next.tables[table].columns) == Names(columns) != []
            && next.tables[table].rows.Keys == db.tables[table].rows.Keys
  {
    var duck, t := DuckColumns(columns), db.tables[table];
    assert Names(duck) == Names(columns);
    hide Growth, Matches, StampsAre, Ensure, DuckColumns;
    Grows(db, flag, table, duck);
    var missing := duck[|t.columns|..];
    assert t.columns + missing == duck;
    Undeclared(v, t);
    GrowthMatches(v.(columns := []), db, table, missing, stamps);
    SameRows(v.(columns := []), v.(columns := Names(columns)), Final(db, Growth(db, table, missing)).tables[table]);
  }

  lemma Grows(db: Database, flag: string, table: string, columns: seq<ColumnSpec>)
    requires table in db.tables && Ensure(db, flag, table, columns).ok
    ensures db.tables[table].columns <= columns && columns != [] && Distinct(Names(columns))
    ensures Final(db, Ensure(db, flag, table, columns).states) ==
            Final(db, Growth(db, table, columns[|db.tables[table].columns|..]))
  {
    hide Growth;
  }

  lemma Undeclared(v: View, t: Table)
    requires Matches(v, t)
    ensures Matches(v.(columns := []), t)
  {
    SameRows(v, v.(columns := []), t);
  }

  lemma DeclarationInDb(s: Standing, db: Database, flag: string, e: Event, keys: set<Value>)
    requires Ready(s, db, flag, e, keys)
    requires e.change.CreateTable? || (e.change.AddColumn? && e.table !in db.tables)
    requires Ensure(db, flag, e.table, DuckColumns(e.change.columns)).ok
    ensures Together(s, Final(db, Ensure(db, flag, e.table, DuckColumns(e.change.columns)).states), flag, e, keys)
  {
    hide Ensure, Matches, Apart, Newer, StampsAre;
    if e.table in db.tables {
      CaughtUpMatches(s.view, db, flag, e.table, e.change.columns, s.stamps);
    } else {
      FreshTable(s.view, db, flag, e.table, e.change.columns);
      NoStamps(Final(db, Ensure(db, flag, e.table, DuckColumns(e.change.columns)).states).tables[e.table]);
    }
  }

  lemma NoStamps(t: Table)
    requires t.rows == map[]
    ensures StampsAre(t, map[])
  {
  }

  lemma AlterInDb(s: Standing, db: Database, flag: string, e: Event, keys: set<Value>)
    requires Ready(s, db, flag, e, keys)
    requires (e.change.AddColumn? || e.change.RenameColumn?) && e.table in db.tables && ApplySchema(db, flag, e).ok
    ensures Together(s, Final(db, ApplySchema(db, flag, e).states), flag, e, keys)
  {
    var t := db.tables[e.table];
    SameHeader(s.view, t);
    var statement := PlanFor(t, e.change).statement;
    if e.change.AddColumn? {
      AddStep(s.view, t, e.change, statement.column.typ);
      assert Names(Exec(t, statement).columns) == Names(t.columns) + [e.change.column];
    } else {
      RenameStepMatches(s.view, t, e.change);
      RenamedNames(t.columns, e.change.from, e.change.to);
    }
    hide Matches, Apart, Newer, Carry, ColumnsAfter, MoveIn;
    SchemaKeepsStamps(t, statement, s.stamps);
  }

  lemma SchemaKeepsStamps(t: Table, s: Statement, stamps: map<Value, Stamp>)
    requires s.IsSchema() && StampsAre(t, stamps)
    ensures StampsAre(Exec(t, s), stamps) && Exec(t, s).rows.Keys == t.rows.Keys
  {
  }

  lemma ApplyInDb(s: Standing, db: Database, flag: string, e: Event, keys: set<Value>)
    requires Ready(s, db, flag, e, keys) && Apply(db, flag, e).ok
    ensures Together(s, Final(db, Apply(db, flag, e).states), flag, e, keys)
  {
    hide Matches, Apart, Newer, StampsAre, Ensure, ApplyRow;
    if e.change.IsRow() {
      RowInDb(s, db, flag, e, keys);
    } else if e.change.CreateTable? || e.table !in db.tables {
      DeclarationInDb(s, db, flag, e, keys);
    } else {
      AlterInDb(s, db, flag, e, keys);
    }
  }

  lemma LandInDb(s: Standing, db: Database, flag: string, e: Event, keys: set<Value>)
    requires Ready(s, db, flag, e, keys) && Land(db, flag, e).ok
    ensures Together(s, Final(db, Land(db, flag, e).states), flag, e, keys)
  {
    hide Ready, Apply, Matches, StampsAre;
    ApplyInDb(s, db, flag, e, keys);
  }

  // --- the whole feed -------------------------------------------------------------------------

  /** Both sides of a feed stand together. */
  ghost predicate Refines(db: Database, flag: string, table: string, feed: seq<Event>, keys: set<Value>) {
    var folded, landed := FoldAll(NewView(flag), Changes(feed)), GuardOnly(db, flag, feed).0;
    && folded.Some?
    && Holds(Standing(folded.value, Shape(feed), Stamps(NewView(flag), feed)), landed, flag, table, keys)
  }

  lemma RefinesAfterOne(db: Database, flag: string, table: string, feed: seq<Event>, keys: set<Value>)
    requires feed != [] && Apart(keys) && SourceFeed(flag, table, feed, keys)
    requires GuardOnly(db, flag, feed).1 && Refines(db, flag, table, feed[..|feed| - 1], keys)
    ensures Refines(db, flag, table, feed, keys)
  {
    hide Land, Fold, Holds, Apart, Newer, Consistent, Changes, ShapeAfter;
    var init, e := feed[..|feed| - 1], feed[|feed| - 1];
    ChangesSnoc(feed);
    var v, at := FoldAll(NewView(flag), Changes(init)).value, GuardOnly(db, flag, init).0;
    LandInDb(Standing(v, Shape(init), Stamps(NewView(flag), init)), at, flag, e, keys);
  }

  lemma ChangesSnoc(feed: seq<Event>)
    requires feed != []
    ensures Changes(feed)[..|feed| - 1] == Changes(feed[..|feed| - 1])
    ensures Changes(feed)[|feed| - 1] == feed[|feed| - 1].change
  {
  }

  lemma {:induction false} GuardRefinesFold(
    db: Database, flag: string, table: string, feed: seq<Event>, keys: set<Value>)
    requires table !in db.tables && Apart(keys) && SourceFeed(flag, table, feed, keys)
    requires GuardOnly(db, flag, feed).1
    ensures Refines(db, flag, table, feed, keys)
    decreases |feed|
  {
    hide Land, Fold, Matches, StampsAre, Apart, Newer, Consistent;
    if feed != [] {
      GuardRefinesFold(db, flag, table, feed[..|feed| - 1], keys);
      RefinesAfterOne(db, flag, table, feed, keys);
    }
  }

  /**
   The sink refines the naive fold. For a single-table feed in the source's order, whenever the run
   lands it the fold accepts it too, and the destination with tombstones and bookkeeping hidden is
   exactly the materialised table, through inserts, updates, deletes, snapshots, added columns and
   renames, the key column's included, whether the table was declared first or made from its first row.
   */
  lemma SinkRefinesFold(db: Database, flag: string, table: string, feed: seq<Event>, keys: set<Value>)
    requires table !in db.tables && db.checkpoint == map[]
    requires Apart(keys) && SourceFeed(flag, table, feed, keys) && Ordered(feed)
    requires Outcome(db, flag, feed).1
    ensures FoldAll(NewView(flag), Changes(feed)).Some?
    ensures MatchesIn(FoldAll(NewView(flag), Changes(feed)).value, Outcome(db, flag, feed).0, flag, table)
  {
    hide Outcome, GuardOnly, FoldAll, SourceFeed, MatchesIn, StampsIn, Ordered, Apart, Stamps, Shape, InForce;
    InOrderNothingIsSkipped(db, flag, feed, |feed|);
    assert feed[..|feed|] == feed;
    GuardRefinesFold(db, flag, table, feed, keys);
  }
}
