/**
 What the DuckDB sink does to its database, as functions of the database alone.

 An effect lists the database after each SQL statement issued, so that a run killed anywhere is a
 prefix of it, and says whether the operation succeeded.
 */
module DuckSpec {
  import opened Feed
  import opened Destination
  import Strings

  /** The destination: its tables, and the checkpoint that travels with them. */
  datatype Database = Database(tables: map<string, Table>, checkpoint: map<string, Stamp>)

  datatype Effect = Effect(states: seq<Database>, ok: bool)

  /** The database once the statements of an effect have run. */
  function Final(db: Database, states: seq<Database>): Database {
    if states == [] then db else states[|states| - 1]
  }

  // --- types ----------------------------------------------------------------------------------

  /** The closed set of types that may reach DDL. */
  predicate Emits(typ: string) {
    typ in ["BIGINT", "DOUBLE", "VARCHAR", "BOOLEAN", "TIMESTAMP"]
  }

  function DuckType(t: string): string {
    if t == "INTEGER" || t == "BIGINT" || t == "TIMESTAMP" then "BIGINT"
    else if t == "BOOLEAN" then "BOOLEAN"
    else if t == "FLOAT" || t == "DOUBLE" || t == "REAL" then "DOUBLE"
    else "VARCHAR"
  }

  function DuckTypeOf(v: Value): string {
    match v
    case Number(digits) => if Strings.IsInt64(digits) then "BIGINT" else "DOUBLE"
    case Bool(_) => "BOOLEAN"
    case _ => "VARCHAR"
  }

  function DuckColumns(columns: seq<ColumnSpec>): (r: seq<ColumnSpec>)
    ensures |r| == |columns|
  {
    seq(|columns|, i requires 0 <= i < |columns| => ColumnSpec(columns[i].name, DuckType(columns[i].typ)))
  }

  /** The columns guessed from a row when nothing better is known: its keys in order, typed by value. */
  function InferredColumns(row: Row): seq<ColumnSpec> {
    var names := Strings.Sorted(row.Keys);
    seq(|names|, i requires 0 <= i < |names| => ColumnSpec(names[i], DuckTypeOf(row[names[i]])))
  }

  predicate Bookkeeping(name: string) {
    name in ["_commit_lsn", "_lsn", "_deleted", "_prov_id", "_agent", "_run", "_model", "_model_version",
             "_prompt_sha256", "_retracted"]
  }

  // --- tables ---------------------------------------------------------------------------------

  /** The key column's current name: the catalog's, or the flag for a table that does not exist yet. */
  function KeyFor(db: Database, flag: string, table: string): string {
    if table in db.tables then db.tables[table].key else flag
  }

  function ExecIn(db: Database, table: string, s: Statement): Database
    requires table in db.tables
  {
    db.(tables := db.tables[table := Exec(db.tables[table], s)])
  }

  function Create(db: Database, table: string, columns: seq<ColumnSpec>, key: string): Database {
    if table in db.tables then db else db.(tables := db.tables[table := Table(columns, key, map[])])
  }

  /** A column list this sink will put in a CREATE TABLE, and the engine will accept. */
  predicate Declarable(columns: seq<ColumnSpec>, key: string) {
    && columns != []
    && (forall c :: c in columns ==> Emits(c.typ))
    && key in Names(columns)
    && Distinct(Names(columns))
    && (forall c :: c in columns ==> !Bookkeeping(c.name))
  }

  /** The states of a catch-up: one ALTER TABLE per missing column, in order. */
  function Growth(db: Database, table: string, missing: seq<ColumnSpec>): (states: seq<Database>)
    requires table in db.tables
    ensures |states| == |missing|
    ensures forall s :: s in states ==> table in s.tables
    decreases |missing|
  {
    if missing == [] then []
    else
      var next := ExecIn(db, table, Add(missing[0]));
      [next] + Growth(next, table, missing[1..])
  }

  /** Reconcile a table with a declared shape: create it, catch it up, find it equal, or refuse. */
  function Ensure(db: Database, flag: string, table: string, columns: seq<ColumnSpec>): Effect {
    var key := KeyFor(db, flag, table);
    if !Declarable(columns, key) then Effect([], false)
    else
      var created := Create(db, table, columns, key);
      var got := created.tables[table].columns;
      if got <= columns
      then Effect([created] + Growth(created, table, columns[|got|..]), true)
      else Effect([created], false)
  }

  // --- events ---------------------------------------------------------------------------------

  function StampOf(e: Event): Stamp {
    Stamp(Signed(e.commitLsn), Signed(e.lsn))
  }

  /** The bound values of the upsert: a column the image does not carry is written as NULL. */
  function Cells(columns: seq<ColumnSpec>, row: Row): Row {
    map c | c in Names(columns) :: if c in row then row[c] else Null
  }

  function PutOf(t: Table, e: Event): Statement
    requires e.change.IsRow() && t.key in e.change.Image()
  {
    Put(e.change.Image()[t.key], Cells(t.columns, e.change.Image()), StampOf(e), e.change.Delete?, e.writer)
  }

  /** Whether an image names its row: the key is there, and is not NULL. */
  predicate NamesRow(t: Table, row: Row) {
    t.key in row && row[t.key] != Null
  }

  function ApplyRow(db: Database, flag: string, e: Event): Effect
    requires e.change.IsRow()
  {
    var ensured := if e.table in db.tables then Effect([], true)
                   else Ensure(db, flag, e.table, InferredColumns(e.change.Image()));
    var at := Final(db, ensured.states);
    if !ensured.ok || e.table !in at.tables || !NamesRow(at.tables[e.table], e.change.Image())
    then Effect(ensured.states, false)
    else Effect(ensured.states + [ExecIn(at, e.table, PutOf(at.tables[e.table], e))], true)
  }

  /** The declared type of a column in an event's shape; the first of that name. */
  function TypeIn(columns: seq<ColumnSpec>, name: string): Option<string> {
    if columns == [] then None
    else if columns[0].name == name then Some(columns[0].typ)
    else TypeIn(columns[1..], name)
  }

  datatype Plan = Refuse | Nothing | Issue(statement: Statement)

  /** The statement a column-level change asks for, judged against the destination's own columns. */
  function PlanFor(t: Table, c: Change): Plan
    requires c.AddColumn? || c.RenameColumn? || c.AlterColumnType?
  {
    var has := Names(t.columns);
    var declared := DuckColumns(c.columns);
    match c
    case AddColumn(_, name) =>
      var typ := TypeIn(declared, name);
      if name == "" || typ.None? || !Emits(typ.value) then Refuse
      else if name in has then Nothing
      else if Bookkeeping(name) then Refuse
      else Issue(Add(ColumnSpec(name, typ.value)))
    case RenameColumn(_, from, to) =>
      if from == "" || to == "" then Refuse
      else if from !in has && to in has then Nothing
      else if from !in has || to in has || Bookkeeping(to) then Refuse
      else Issue(Rename(from, to))
    case AlterColumnType(_, name, _, _) =>
      var typ := TypeIn(declared, name);
      if name == "" || typ.None? || !Emits(typ.value) || name !in has || name == t.key then Refuse
      else Issue(Retype(name, typ.value))
  }

  function ApplySchema(db: Database, flag: string, e: Event): Effect
    requires e.change.AddColumn? || e.change.RenameColumn? || e.change.AlterColumnType?
  {
    if e.change.columns == [] then Effect([], false)
    else if e.table !in db.tables then Ensure(db, flag, e.table, DuckColumns(e.change.columns))
    else match PlanFor(db.tables[e.table], e.change)
      case Refuse => Effect([], false)
      case Nothing => Effect([], true)
      case Issue(s) => Effect([ExecIn(db, e.table, s)], true)
  }

  function Apply(db: Database, flag: string, e: Event): Effect {
    match e.change
    case CreateTable(columns) => Ensure(db, flag, e.table, DuckColumns(columns))
    case DropTable => Effect([db.(tables := db.tables - {e.table})], true)
    case AddColumn(_, _) => ApplySchema(db, flag, e)
    case RenameColumn(_, _, _) => ApplySchema(db, flag, e)
    case AlterColumnType(_, _, _, _) => ApplySchema(db, flag, e)
    case _ => ApplyRow(db, flag, e)
  }

  // --- the resume cursor and the loop ---------------------------------------------------------

  /** The checkpoint's own guarded upsert, compared as stored. */
  function SaveCursor(db: Database, table: string, s: Stamp): Database {
    if table !in db.checkpoint || Above(s, db.checkpoint[table])
    then db.(checkpoint := db.checkpoint[table := s])
    else db
  }

  /** A table's position becomes the later of the one held and the one given, and nothing else changes. */
  predicate Advances(db: Database, next: Database, table: string, s: Stamp) {
    && next.tables == db.tables && next.checkpoint.Keys == db.checkpoint.Keys + {table}
    && (forall t :: t in db.checkpoint && t != table ==> next.checkpoint[t] == db.checkpoint[t])
    && !Above(s, next.checkpoint[table])
    && (table in db.checkpoint ==> !Above(db.checkpoint[table], next.checkpoint[table]))
    && (next.checkpoint[table] == s || (table in db.checkpoint && next.checkpoint[table] == db.checkpoint[table]))
  }

  /** A stored position read back as unsigned. */
  function Unsigned(x: int): int {
    if x < 0 then x + 0x1_0000_0000_0000_0000 else x
  }

  /** The cursor as the loop reads it: a missing checkpoint reads as (0, 0). */
  function Cursor(db: Database, table: string): Stamp {
    if table in db.checkpoint
    then Stamp(Unsigned(db.checkpoint[table].commit), Unsigned(db.checkpoint[table].record))
    else Stamp(0, 0)
  }

  /** Whether the loop takes an event for a re-delivery. */
  predicate Skips(db: Database, e: Event) {
    !e.change.BypassesCursor() && !Above(Stamp(e.commitLsn, e.lsn), Cursor(db, e.table))
  }

  function Step(db: Database, flag: string, e: Event): Effect {
    if Skips(db, e) then Effect([], true) else Land(db, flag, e)
  }

  /** Applying one event and recording the position, with no cursor test in front of it. */
  function Land(db: Database, flag: string, e: Event): Effect {
    var applied := Apply(db, flag, e);
    if !applied.ok || e.change.BypassesCursor() then applied
    else
      Effect(applied.states + [SaveCursor(Final(db, applied.states), e.table, StampOf(e))], true)
  }

  /** Land a whole feed: stop at the first event that fails. */
  function Run(db: Database, flag: string, feed: seq<Event>): Effect
    decreases |feed|
  {
    if feed == [] then Effect([], true)
    else
      var step := Step(db, flag, feed[0]);
      if !step.ok then step
      else
        var rest := Run(Final(db, step.states), flag, feed[1..]);
        Effect(step.states + rest.states, rest.ok)
  }
}
