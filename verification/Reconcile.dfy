/**
 What reconciling a destination with a declared shape, and withdrawing a model version, do to the
 rows that are already there.
 */
module Reconcile {
  import opened Feed
  import opened Destination
  import opened DuckSpec
  import Strings
  import DuckSinks

  /** A row carried across a catch-up: same bookkeeping, same values, NULL where it had no column. */
  ghost predicate Carried(r: DestRow, q: DestRow) {
    && Meta(q) == Meta(r)
    && (forall c :: c in r.cells ==> c in q.cells && q.cells[c] == r.cells[c])
    && (forall c :: c in q.cells && c !in r.cells ==> q.cells[c] == Null)
  }

  ghost predicate RowsCarried(t: Table, u: Table) {
    t.rows.Keys == u.rows.Keys && forall k :: k in t.rows.Keys ==> Carried(t.rows[k], u.rows[k])
  }

  lemma AddCarries(t: Table, c: ColumnSpec)
    ensures RowsCarried(t, Exec(t, Add(c)))
  {
  }

  lemma CarriedTransitive(t: Table, u: Table, v: Table)
    requires RowsCarried(t, u) && RowsCarried(u, v)
    ensures RowsCarried(t, v)
  {
  }

  lemma {:induction false} GrowthCarries(db: Database, table: string, missing: seq<ColumnSpec>)
    requires table in db.tables
    ensures var r := Final(db, Growth(db, table, missing));
            && table in r.tables && RowsCarried(db.tables[table], r.tables[table])
            && r.checkpoint == db.checkpoint
            && r.tables.Keys == db.tables.Keys
            && (forall t :: t in db.tables && t != table ==> r.tables[t] == db.tables[t])
    decreases |missing|
  {
    hide Exec;
    if missing != [] {
      var next := ExecIn(db, table, Add(missing[0]));
      AddCarries(db.tables[table], missing[0]);
      GrowthCarries(next, table, missing[1..]);
      CarriedTransitive(db.tables[table], next.tables[table], Final(db, Growth(db, table, missing)).tables[table]);
    }
  }

  /** The columns the sinks keep for themselves. */
  const OWN_COLUMNS := {
    "_commit_lsn", "_lsn", "_deleted", "_prov_id", "_agent", "_run", "_model", "_model_version",
    "_prompt_sha256", "_retracted"}

  lemma OwnColumnsIff()
    ensures forall n :: Bookkeeping(n) <==> n in OWN_COLUMNS
  {
  }

  /** A shape this sink will declare: known types, its key column, and no name twice or of its own. */
  predicate Proper(columns: seq<ColumnSpec>, key: string) {
    && columns != [] && key in Names(columns) && Distinct(Names(columns))
    && forall c :: c in columns ==>
         c.typ in {"BIGINT", "DOUBLE", "VARCHAR", "BOOLEAN", "TIMESTAMP"} && c.name !in OWN_COLUMNS
  }

  lemma DeclarableIff(columns: seq<ColumnSpec>, key: string)
    ensures Declarable(columns, key) <==> Proper(columns, key)
  {
    OwnColumnsIff();
  }

  /** What has to hold of the destination for a declaration to be accepted. */
  predicate Agrees(db: Database, flag: string, table: string, columns: seq<ColumnSpec>) {
    && Proper(columns, if table in db.tables then db.tables[table].key else flag)
    && (table in db.tables ==> db.tables[table].columns <= columns)
  }

  /**
   Declared-shape reconciliation: it succeeds exactly when the destination's columns are a prefix of
   a declarable shape, by name and type in order; it then has exactly that shape with every row
   carried over, and a refusal changes nothing at all.
   */
  lemma Reconciliation(db: Database, flag: string, table: string, columns: seq<ColumnSpec>)
    ensures var effect := Ensure(db, flag, table, columns);
            var r := Final(db, effect.states);
            && (effect.ok <==> Agrees(db, flag, table, columns))
            && (!effect.ok ==> r == db)
            && (effect.ok ==>
                  && table in r.tables && r.tables[table].columns == columns
                  && r.tables[table].key == (if table in db.tables then db.tables[table].key else flag))
            && (effect.ok && table in db.tables ==> RowsCarried(db.tables[table], r.tables[table]))
            && (effect.ok && table !in db.tables ==> r.tables[table].rows == map[])
            && r.checkpoint == db.checkpoint
            && (forall t :: t in db.tables && t != table ==> t in r.tables && r.tables[t] == db.tables[t])
  {
    DeclarableIff(columns, KeyFor(db, flag, table));
    hide Declarable, Proper, Growth, RowsCarried;
    if Agrees(db, flag, table, columns) {
      var made := Create(db, table, columns, KeyFor(db, flag, table));
      var got := made.tables[table].columns;
      GrowthCarries(made, table, columns[|got|..]);
      DuckSinks.Caught(made, table, columns);
      if table !in db.tables {
        DuckSinks.NothingToAdd(made, table, columns);
      }
    }
  }

  // ---------------------------------------------------------------------------------------------
  // Retraction by model version.

  /** The rows a model version wrote. */
  function RowsBy(t: Table, version: string): set<Value> {
    set k | k in t.rows && t.rows[k].writer.Some? && t.rows[k].writer.value.modelVersion == version
  }

  /**
   Withdraw everything one model version wrote: all of its rows, none of any other's and none of the
   unattributed ones, with stamps, values and writers untouched. Refused when the version is blank,
   the table is missing or nothing matches, and then nothing has changed.
   */
  method RunRetract(db: Database, table: string, version: string, mode: Mode)
    returns (next: Database, retracted: nat, total: nat, ok: bool)
    ensures ok <==> Strings.TrimSpace(version) != "" && table in db.tables && RowsBy(db.tables[table], version) != {}
    ensures !ok ==> next == db
    ensures ok ==>
      && retracted == |RowsBy(db.tables[table], version)| && total == |db.tables[table].rows|
      && next.checkpoint == db.checkpoint && next.tables.Keys == db.tables.Keys
      && (forall t :: t in db.tables && t != table ==> next.tables[t] == db.tables[t])
      && next.tables[table] == Exec(db.tables[table], Retract(version, mode))
      && (forall k :: k in RowsBy(db.tables[table], version) ==>
            var r, q := db.tables[table].rows[k], next.tables[table].rows[k];
            q == r.(retracted := true, deleted := if mode == Remove then true else r.deleted))
      && (forall k :: k in db.tables[table].rows && k !in RowsBy(db.tables[table], version) ==>
            next.tables[table].rows[k] == db.tables[table].rows[k])
  {
    next, retracted, total, ok := db, 0, 0, false;
    if Strings.TrimSpace(version) == "" {
      return;
    }
    if table !in db.tables {
      return;
    }
    total := |db.tables[table].rows|;
    next := ExecIn(db, table, Retract(version, mode));
    retracted := |RowsBy(db.tables[table], version)|;
    if retracted == 0 {
      NobodyMarked(db.tables[table], version, mode);
      return;
    }
    ok := true;
  }

  lemma NobodyMarked(t: Table, version: string, mode: Mode)
    requires RowsBy(t, version) == {}
    ensures Exec(t, Retract(version, mode)) == t
  {
    forall k | k in t.rows
      ensures RowAfter(t.rows[k], Retract(version, mode)) == t.rows[k]
    {
      assert k !in RowsBy(t, version);
    }
  }
}
