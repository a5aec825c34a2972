/**
 What the SQLite sink does, as functions of its destination and of the one thing in its memory that
 shows: the columns it has cached for each table. They hold what an event declared, or what the first
 row of the process carried, not what the destination has; and a kill forgets them.
 */
module SqliteSpec {
  import opened Feed
  import opened Destination
  import opened DuckSpec
  import Strings

  // --- types ----------------------------------------------------------------------------------

  function SqlType(t: string): string {
    if t == "INTEGER" || t == "BOOLEAN" || t == "BIGINT" || t == "TIMESTAMP" then "INTEGER"
    else if t == "FLOAT" then "REAL"
    else "TEXT"
  }

  function Upper(s: string): string {
    seq(|s|, i requires 0 <= i < |s| => if 'a' <= s[i] <= 'z' then s[i] - 'a' + 'A' else s[i])
  }

  predicate Contains(s: string, word: string) {
    word <= s || (s != [] && Contains(s[1..], word))
  }

  datatype Affinity = IntegerAffinity | TextAffinity | BlobAffinity | RealAffinity | NumericAffinity

  /** The five rules of section 3.1 of SQLite's "Datatypes In SQLite", in order. */
  function AffinityOf(declared: string): Affinity {
    var d := Upper(Strings.TrimSpace(declared));
    if Contains(d, "INT") then IntegerAffinity
    else if Contains(d, "CHAR") || Contains(d, "CLOB") || Contains(d, "TEXT") then TextAffinity
    else if d == "" || Contains(d, "BLOB") then BlobAffinity
    else if Contains(d, "REAL") || Contains(d, "FLOA") || Contains(d, "DOUB") then RealAffinity
    else NumericAffinity
  }

  /** A declared shape as this destination spells it. */
  function Spelled(columns: seq<ColumnSpec>): (r: seq<ColumnSpec>)
    ensures |r| == |columns| && Names(r) == Names(columns)
  {
    seq(|columns|, i requires 0 <= i < |columns| => columns[i].(typ := SqlType(columns[i].typ)))
  }

  // --- shapes ---------------------------------------------------------------------------------

  /** One destination column against one declared one; an inferred type is not worth comparing. */
  predicate SameColumn(got: ColumnSpec, want: ColumnSpec, declared: bool) {
    got.name == want.name && (declared ==> AffinityOf(got.typ) == AffinityOf(want.typ))
  }

  /** The destination is behind: its columns are the first of the declared ones, and fewer. */
  predicate Behind(got: seq<ColumnSpec>, want: seq<ColumnSpec>, declared: bool) {
    |got| < |want| && forall i :: 0 <= i < |got| ==> SameColumn(got[i], want[i], declared)
  }

  /** A rename the log has forgotten, or a retype the destination has not applied. */
  predicate Conflicts(want: seq<ColumnSpec>, got: seq<ColumnSpec>, i: nat)
    requires i < |want| && i < |got|
  {
    || (want[i].name != got[i].name && |want| == |got|)
    || (want[i].name == got[i].name && AffinityOf(got[i].typ) == IntegerAffinity &&
        AffinityOf(want[i].typ) == TextAffinity)
  }

  predicate Agree(want: seq<ColumnSpec>, got: seq<ColumnSpec>) {
    forall i :: 0 <= i < |want| && i < |got| ==> !Conflicts(want, got, i)
  }

  // --- tables ---------------------------------------------------------------------------------

  function AddIfNew(t: Table, c: ColumnSpec): Table {
    if c.name in Names(t.columns) || Bookkeeping(c.name) then t else Exec(t, Add(c))
  }

  /** The states of a catch-up: one ALTER TABLE per missing column; a name already there is passed over. */
  function Growth(db: Database, table: string, missing: seq<ColumnSpec>): (states: seq<Database>)
    requires table in db.tables
    ensures |states| == |missing| && forall s :: s in states ==> table in s.tables
    decreases |missing|
  {
    if missing == [] then []
    else
      var next := db.(tables := db.tables[table := AddIfNew(db.tables[table], missing[0])]);
      [next] + Growth(next, table, missing[1..])
  }

  /** Bring a table that is behind a shape up to it. */
  function CatchUp(db: Database, table: string, want: seq<ColumnSpec>, declared: bool): (states: seq<Database>)
    requires table in db.tables
    ensures forall s :: s in states ==> table in s.tables
  {
    var got := db.tables[table].columns;
    if Behind(got, want, declared) then Growth(db, table, want[|got|..]) else []
  }

  /** No primary key is the empty name: the key column was not in the shape that made the table. */
  function Made(columns: seq<ColumnSpec>, key: string): Table {
    Table(columns, if key in Names(columns) then key else "", map[])
  }

  /** The row that stands after a rebuild: the bookkeeping as it was, the columns of the new shape. */
  function Rebuilt(r: DestRow, names: seq<string>): DestRow {
    r.(cells := map c | c in names && c in r.cells :: r.cells[c])
  }

  /** The key column's current name, or the flag for a table with no primary key. */
  function KeyName(t: Table, flag: string): string {
    if t.key != "" then t.key else flag
  }

  function RebuiltTable(t: Table, flag: string, cols: seq<ColumnSpec>): Table {
    Made(Spelled(cols), KeyName(t, flag)).(rows := map k | k in t.rows :: Rebuilt(t.rows[k], Names(cols)))
  }

  /** A rebuild may drop a column but not invent one. */
  predicate MayRebuild(t: Table, cols: seq<ColumnSpec>) {
    Distinct(Names(cols)) && forall n :: n in Names(cols) ==> n in Names(t.columns)
  }

  /** The type an event's shape gives a column; the last of that name. */
  function LastTypeIn(columns: seq<ColumnSpec>, name: string): Option<string> {
    if columns == [] then None
    else if columns[|columns| - 1].name == name then Some(columns[|columns| - 1].typ)
    else LastTypeIn(columns[..|columns| - 1], name)
  }

  predicate IsColumnChange(c: Change) {
    c.AddColumn? || c.RenameColumn? || c.AlterColumnType?
  }

  /** What a column-level change makes of an existing table; `None` when it is refused. */
  function Evolved(t: Table, flag: string, c: Change): Option<Table>
    requires IsColumnChange(c)
  {
    match c
    case AddColumn(cols, name) =>
      var typ := LastTypeIn(Spelled(cols), name);
      if name == "" || typ.None? then None else Some(AddIfNew(t, ColumnSpec(name, typ.value)))
    case RenameColumn(_, from, to) =>
      if from == "" || to == "" then None
      else if from !in Names(t.columns) then Some(t)
      else if to in Names(t.columns) || Bookkeeping(to) then None
      else Some(Exec(t, Rename(from, to)))
    case AlterColumnType(cols, _, _, _) =>
      if MayRebuild(t, cols) then Some(RebuiltTable(t, flag, cols)) else None
  }

  // --- a process ------------------------------------------------------------------------------

  /** The columns each table's statements bind, as the process has them in memory. */
  type Cache = map<string, seq<string>>

  datatype Process = Process(db: Database, columns: Cache)

  /** The database after each statement, the cache at the end, and whether the operation succeeded. */
  datatype Result = Result(states: seq<Database>, columns: Cache, ok: bool)

  function End(p: Process, r: Result): Process {
    Process(Final(p.db, r.states), r.columns)
  }

  predicate Creatable(names: seq<string>) {
    Distinct(names) && forall n :: n in names ==> !Bookkeeping(n)
  }

  /** Create, catch up, check; and cache the columns that were declared. */
  function Ensure(p: Process, flag: string, table: string, cols: seq<ColumnSpec>, declared: bool): Result {
    var want := Spelled(cols);
    if table !in p.db.tables then
      if !Creatable(Names(cols)) then Result([], p.columns, false)
      else
        Result([p.db.(tables := p.db.tables[table := Made(want, flag)])], p.columns[table := Names(cols)], true)
    else
      var grown := CatchUp(p.db, table, want, declared);
      if declared && !Agree(want, Final(p.db, grown).tables[table].columns)
      then Result([p.db] + grown, p.columns, false)
      else Result([p.db] + grown, p.columns[table := Names(cols)], true)
  }

  /** The columns guessed from a row: its keys in order, all of them text. */
  function Inferred(row: Row): (r: seq<ColumnSpec>)
    ensures Names(r) == Strings.Sorted(row.Keys)
  {
    var names := Strings.Sorted(row.Keys);
    seq(|names|, i requires 0 <= i < |names| => ColumnSpec(names[i], "TEXT"))
  }

  /** The statement can be issued: every cached column is there, the primary key among them and with a value. */
  predicate Binds(t: Table, cached: seq<string>, row: Row) {
    && (forall c :: c in cached ==> c in Names(t.columns))
    && t.key != "" && t.key in cached && NamesRow(t, row)
  }

  /** What a column a statement does not bind holds afterwards. */
  function Held(t: Table, k: Value, c: string): Value {
    if k in t.rows && c in t.rows[k].cells then t.rows[k].cells[c] else Null
  }

  /** The value an image gives a column. */
  function Imaged(row: Row, c: string): Value {
    if c in row then row[c] else Null
  }

  function PutOf(t: Table, cached: seq<string>, e: Event): Statement
    requires e.change.IsRow() && t.key in e.change.Image()
  {
    var row := e.change.Image();
    var k := row[t.key];
    Put(k, map c | c in Names(t.columns) :: if c in cached then Imaged(row, c) else Held(t, k, c),
        StampOf(e), e.change.Delete?, e.writer)
  }

  function ApplyRow(p: Process, flag: string, e: Event): Result
    requires e.change.IsRow()
  {
    var row := e.change.Image();
    var ensured := if e.table in p.columns then Result([], p.columns, true)
                   else Ensure(p, flag, e.table, Inferred(row), false);
    var at := Final(p.db, ensured.states);
    if !ensured.ok || e.table !in at.tables || e.table !in ensured.columns ||
       !Binds(at.tables[e.table], ensured.columns[e.table], row)
    then Result(ensured.states, ensured.columns, false)
    else
      var next := ExecIn(at, e.table, PutOf(at.tables[e.table], ensured.columns[e.table], e));
      Result(ensured.states + [next], ensured.columns, true)
  }

  function ApplySchema(p: Process, flag: string, e: Event): Result
    requires IsColumnChange(e.change)
  {
    if e.change.columns == [] then Result([], p.columns, false)
    else if e.table !in p.db.tables then Ensure(p, flag, e.table, e.change.columns, true)
    else match Evolved(p.db.tables[e.table], flag, e.change)
      case None => Result([], p.columns, false)
      case Some(t) =>
        Result([p.db.(tables := p.db.tables[e.table := t])], p.columns[e.table := Names(t.columns)], true)
  }

  function Apply(p: Process, flag: string, e: Event): Result {
    match e.change
    case CreateTable(columns) => Ensure(p, flag, e.table, columns, true)
    case DropTable => Result([p.db.(tables := p.db.tables - {e.table})], p.columns - {e.table}, true)
    case AddColumn(_, _) => ApplySchema(p, flag, e)
    case RenameColumn(_, _, _) => ApplySchema(p, flag, e)
    case AlterColumnType(_, _, _, _) => ApplySchema(p, flag, e)
    case _ => ApplyRow(p, flag, e)
  }

  /** Applying one event and recording the position. */
  function Land(p: Process, flag: string, e: Event): Result {
    var applied := Apply(p, flag, e);
    if !applied.ok || e.change.BypassesCursor() then applied
    else applied.(states := applied.states + [SaveCursor(Final(p.db, applied.states), e.table, StampOf(e))])
  }

  function Step(p: Process, flag: string, e: Event): Result {
    if Skips(p.db, e) then Result([], p.columns, true) else Land(p, flag, e)
  }

  /** Land a whole feed: stop at the first event that fails. */
  function Run(p: Process, flag: string, feed: seq<Event>): Result
    decreases |feed|
  {
    if feed == [] then Result([], p.columns, true)
    else
      var step := Step(p, flag, feed[0]);
      if !step.ok then step
      else
        var rest := Run(End(p, step), flag, feed[1..]);
        Result(step.states + rest.states, rest.columns, rest.ok)
  }

  /** The process a run leaves, and whether it got to the end of its feed. */
  function Outcome(p: Process, flag: string, feed: seq<Event>): (Process, bool) {
    (End(p, Run(p, flag, feed)), Run(p, flag, feed).ok)
  }
}
