/**
 The DuckDB sink as it runs: a database handle, and in-memory caches of each table's columns and key
 column that the statements must keep true.

 Every method is proved against `DuckSpec`, which knows no cache. `trail` records the database after
 each statement, so it is what a kill at any moment can leave behind.
 */
module DuckSinks {
  import opened Feed
  import opened Destination
  import opened DuckSpec

  /** What a run reports: landed, re-delivered, furthest resume point, last table landed in. */
  datatype Totals = Totals(applied: nat, skipped: nat, cursor: uint64, lastTable: string)

  function Tally(db: Database, flag: string, feed: seq<Event>, acc: Totals): Totals
    decreases |feed|
  {
    if feed == [] then acc
    else if Skips(db, feed[0]) then Tally(db, flag, feed[1..], acc.(skipped := acc.skipped + 1))
    else
      var land := Land(db, flag, feed[0]);
      if !land.ok then acc
      else
        Tally(Final(db, land.states), flag, feed[1..],
              Totals(acc.applied + 1, acc.skipped,
                     if feed[0].commitEndLsn > acc.cursor then feed[0].commitEndLsn else acc.cursor, feed[0].table))
  }

  class DuckSink {
    const key: string
    var db: Database
    var columns: map<string, seq<string>>
    var keys: map<string, string>
    ghost var trail: seq<Database>

    /** A cached column list is the destination's own, in order; a cached key is its primary key. */
    ghost predicate Coherent()
      reads this
    {
      && (forall t :: t in columns ==> t in db.tables && columns[t] == Names(db.tables[t].columns))
      && (forall t :: t in keys ==> t in db.tables && keys[t] == db.tables[t].key)
    }

    /** A sink opened over a destination another run left: nothing is cached yet. */
    constructor (destination: Database, key: string)
      ensures Coherent() && db == destination && this.key == key && trail == []
      ensures columns == map[] && keys == map[]
    {
      this.key, db, columns, keys, trail := key, destination, map[], map[], [];
    }

    /** One SQL statement taking effect. */
    method Commit(next: Database)
      modifies this`db, this`trail
      ensures db == next && trail == old(trail) + [next]
    {
      db, trail := next, trail + [next];
    }

    method KeyFor(table: string) returns (name: string)
      requires Coherent()
      modifies this`keys
      ensures Coherent()
      ensures name == DuckSpec.KeyFor(db, key, table)
    {
      if table in keys {
        return keys[table];
      }
      if table in db.tables {
        keys := keys[table := db.tables[table].key];
        return keys[table];
      }
      return key;
    }

    method ForgetKey(table: string)
      modifies this`keys
      ensures keys == old(keys) - {table}
    {
      keys := keys - {table};
    }

    /** Add the columns a declaration has and the destination does not; only ever to a strict prefix. */
    method CatchUp(table: string, want: seq<ColumnSpec>, got: seq<ColumnSpec>) returns (grown: bool)
      requires table in db.tables && db.tables[table].columns == got
      modifies this`db, this`trail
      ensures grown <==> got < want
      ensures !grown ==> db == old(db) && trail == old(trail)
      ensures grown ==>
        var states := Growth(old(db), table, want[|got|..]);
        trail == old(trail) + states && db == Final(old(db), states)
    {
      hide Exec;
      if |got| >= |want| {
        return false;
      }
      for i := 0 to |got|
        invariant got[..i] == want[..i]
      {
        if got[i].name != want[i].name || got[i].typ != want[i].typ {
          return false;
        }
      }
      assert got == want[..|got|];
      ghost var all := Growth(db, table, want[|got|..]);
      for i := |got| to |want|
        invariant table in db.tables
        invariant trail + Growth(db, table, want[i..]) == old(trail) + all
        invariant Final(db, Growth(db, table, want[i..])) == Final(old(db), all)
      {
        assert want[i..][1..] == want[i + 1..] && want[i..][0] == want[i];
        var next := ExecIn(db, table, Add(want[i]));
        assert Growth(db, table, want[i..]) == [next] + Growth(next, table, want[i + 1..]);
        Commit(next);
      }
      return true;
    }

    method CheckSchemaAgrees(want: seq<ColumnSpec>, got: seq<ColumnSpec>) returns (ok: bool)
      ensures ok <==> want == got
    {
      if |want| != |got| {
        return false;
      }
      for i := 0 to |want|
        invariant want[..i] == got[..i]
      {
        if want[i].name != got[i].name || want[i].typ != got[i].typ {
          return false;
        }
      }
      return true;
    }

    /** The column definitions of a CREATE TABLE: refused for a type outside the allowlist, or no key. */
    method Definitions(table: string, cols: seq<ColumnSpec>) returns (ok: bool)
      requires Coherent()
      modifies this`keys
      ensures Coherent()
      ensures ok <==> (forall c :: c in cols ==> Emits(c.typ)) && DuckSpec.KeyFor(db, key, table) in Names(cols)
    {
      var sawKey := false;
      for i := 0 to |cols|
        invariant Coherent()
        invariant forall j :: 0 <= j < i ==> Emits(cols[j].typ)
        invariant sawKey <==> exists j :: 0 <= j < i && cols[j].name == DuckSpec.KeyFor(db, key, table)
      {
        if !Emits(cols[i].typ) {
          return false;
        }
        var k := KeyFor(table);
        if cols[i].name == k {
          sawKey := true;
        }
      }
      assert forall j :: 0 <= j < |cols| ==> cols[j].name == Names(cols)[j];
      return sawKey;
    }

    /** Whether the CREATE TABLE may be issued, and the engine will take it. */
    method MayDeclare(table: string, cols: seq<ColumnSpec>) returns (ok: bool)
      requires Coherent()
      modifies this`keys
      ensures Coherent()
      ensures ok <==> Declarable(cols, DuckSpec.KeyFor(db, key, table))
    {
      if |cols| == 0 {
        return false;
      }
      ok := Definitions(table, cols);
      // The engine refuses a CREATE TABLE that names a column twice, this sink's own included.
      ok := ok && Distinct(Names(cols)) && forall c :: c in cols ==> !Bookkeeping(c.name);
    }

    method EnsureTable(table: string, cols: seq<ColumnSpec>) returns (ok: bool)
      requires Coherent()
      modifies this
      ensures Coherent()
      ensures var effect := Ensure(old(db), key, table, cols);
              ok == effect.ok && trail == old(trail) + effect.states && db == Final(old(db), effect.states)
      ensures ok ==> table in columns && columns[table] == Names(cols)
    {
      hide Declarable, Growth;
      ok := MayDeclare(table, cols);
      if ok {
        var k := KeyFor(table);
        Commit(Create(db, table, cols, k));
        ok := Reconcile(table, cols);
      }
    }

    /** The second half: ask the catalog what is there, catch it up, and refuse what still differs. */
    method Reconcile(table: string, cols: seq<ColumnSpec>) returns (ok: bool)
      requires Coherent() && table in db.tables
      modifies this`db, this`trail, this`columns
      ensures Coherent()
      ensures ok <==> old(db).tables[table].columns <= cols
      ensures !ok ==> db == old(db) && trail == old(trail)
      ensures ok ==>
        var states := Growth(old(db), table, cols[|old(db).tables[table].columns|..]);
        trail == old(trail) + states && db == Final(old(db), states)
      ensures ok ==> table in columns && columns[table] == Names(cols)
    {
      hide Growth;
      var actual := db.tables[table].columns;
      ghost var created := db;
      var grown := CatchUp(table, cols, actual);
      if grown {
        Caught(created, table, cols);
        actual := db.tables[table].columns;
      }
      ok := CheckSchemaAgrees(cols, actual);
      if !ok {
        return;
      }
      if !grown {
        NothingToAdd(db, table, cols);
      }
      columns := columns[table := Names(actual)];
    }

    /** Settle a table's columns: the cache, then the catalog, then a guess from the row. */
    method EnsureFromRow(table: string, row: Row) returns (ok: bool)
      requires Coherent()
      modifies this
      ensures Coherent()
      ensures var effect := if table in old(db).tables then Effect([], true)
                            else Ensure(old(db), key, table, InferredColumns(row));
              ok == effect.ok && trail == old(trail) + effect.states && db == Final(old(db), effect.states)
      ensures ok ==> table in columns
    {
      if table in columns {
        return true;
      }
      if table in db.tables {
        columns := columns[table := Names(db.tables[table].columns)];
        return true;
      }
      ok := EnsureTable(table, InferredColumns(row));
    }

    /** One ALTER TABLE, and the caches re-read from the catalog after it. */
    method Alter(table: string, statement: Statement)
      requires Coherent() && table in db.tables && statement.IsSchema()
      modifies this
      ensures Coherent()
      ensures db == ExecIn(old(db), table, statement) && trail == old(trail) + [db]
      ensures table !in keys && table in columns
    {
      Commit(ExecIn(db, table, statement));
      ForgetKey(table);
      columns := columns[table := Names(db.tables[table].columns)];
    }

    method ApplySchemaChange(e: Event) returns (ok: bool)
      requires e.change.AddColumn? || e.change.RenameColumn? || e.change.AlterColumnType?
      requires Coherent()
      modifies this
      ensures Coherent()
      ensures var effect := ApplySchema(old(db), key, e);
              ok == effect.ok && trail == old(trail) + effect.states && db == Final(old(db), effect.states)
    {
      hide Ensure, Exec;
      var cols := DuckColumns(e.change.columns);
      if |cols| == 0 {
        return false;
      }
      if e.table !in db.tables {
        ok := EnsureTable(e.table, cols);
        return;
      }
      var has := Names(db.tables[e.table].columns);
      match e.change {
        case AddColumn(_, name) =>
          var typ := TypeIn(cols, name);
          if name == "" || typ.None? || !Emits(typ.value) {
            return false;
          }
          if name !in has {
            if Bookkeeping(name) {
              return false;
            }
            Alter(e.table, Add(ColumnSpec(name, typ.value)));
            return true;
          }
        case RenameColumn(_, from, to) =>
          if from == "" || to == "" {
            return false;
          }
          if from in has || to !in has {
            if from !in has || to in has || Bookkeeping(to) {
              return false;
            }
            Alter(e.table, Rename(from, to));
            return true;
          }
        case AlterColumnType(_, name, _, _) =>
          var typ := TypeIn(cols, name);
          if name == "" || typ.None? || !Emits(typ.value) || name !in has || name == db.tables[e.table].key {
            return false;
          }
          Alter(e.table, Retype(name, typ.value));
          return true;
      }
      ForgetKey(e.table);
      columns := columns[e.table := has];
      return true;
    }

    /** The guarded upsert of a row event, its values bound column by column from the cache. */
    method Upsert(e: Event) returns (ok: bool)
      requires Coherent() && e.change.IsRow() && e.table in columns
      modifies this`db, this`trail, this`keys
      ensures Coherent()
      ensures ok <==> NamesRow(old(db).tables[e.table], e.change.Image())
      ensures !ok ==> db == old(db) && trail == old(trail)
      ensures ok ==> db == ExecIn(old(db), e.table, PutOf(old(db).tables[e.table], e)) && trail == old(trail) + [db]
    {
      hide Exec;
      var row := e.change.Image();
      var k := KeyFor(e.table);
      if k !in row || row[k] == Null {
        return false;
      }
      var cols := columns[e.table];
      var cells := map c | c in cols :: if c in row then row[c] else Null;
      assert cells == Cells(db.tables[e.table].columns, row);
      var put := Put(row[k], cells, StampOf(e), e.change.Delete?, e.writer);
      PutKeepsShape(db.tables[e.table], put);
      Commit(ExecIn(db, e.table, put));
      return true;
    }

    method Apply(e: Event) returns (ok: bool)
      requires Coherent()
      modifies this
      ensures Coherent()
      ensures var effect := DuckSpec.Apply(old(db), key, e);
              ok == effect.ok && trail == old(trail) + effect.states && db == Final(old(db), effect.states)
    {
      hide Ensure, Exec, ApplySchema, ApplyRow;
      match e.change {
        case CreateTable(cols) =>
          ok := EnsureTable(e.table, DuckColumns(cols));
        case DropTable =>
          Commit(db.(tables := db.tables - {e.table}));
          columns := columns - {e.table};
          ForgetKey(e.table);
          ok := true;
        case AddColumn(_, _) =>
          ok := ApplySchemaChange(e);
        case RenameColumn(_, _, _) =>
          ok := ApplySchemaChange(e);
        case AlterColumnType(_, _, _, _) =>
          ok := ApplySchemaChange(e);
        case _ =>
          ok := ApplyRowEvent(e);
      }
    }

    method ApplyRowEvent(e: Event) returns (ok: bool)
      requires Coherent() && e.change.IsRow()
      modifies this
      ensures Coherent()
      ensures var effect := ApplyRow(old(db), key, e);
              ok == effect.ok && trail == old(trail) + effect.states && db == Final(old(db), effect.states)
    {
      hide Ensure, Exec, NamesRow, PutOf, InferredColumns;
      ok := EnsureFromRow(e.table, e.change.Image());
      if ok {
        ok := Upsert(e);
      }
    }

    /** Advance a table's resume point: it becomes the later of the two, as signed columns, and no other moves. */
    method SaveCursor(table: string, commitLsn: uint64, recordLsn: uint64)
      requires Coherent()
      modifies this`db, this`trail
      ensures Coherent() && trail == old(trail) + [db]
      ensures Advances(old(db), db, table, Stamp(Signed(commitLsn), Signed(recordLsn)))
      ensures db == DuckSpec.SaveCursor(old(db), table, Stamp(Signed(commitLsn), Signed(recordLsn)))
    {
      var s := Stamp(Signed(commitLsn), Signed(recordLsn));
      if table !in db.checkpoint {
        Commit(db.(checkpoint := db.checkpoint[table := s]));
        return;
      }
      var held := db.checkpoint[table];
      if s.commit > held.commit || (s.commit == held.commit && s.record > held.record) {
        Commit(db.(checkpoint := db.checkpoint[table := s]));
      } else {
        Commit(db);
      }
    }

    /** Apply one event and record its position. */
    method LandEvent(e: Event) returns (ok: bool)
      requires Coherent()
      modifies this
      ensures Coherent()
      ensures var effect := Land(old(db), key, e);
              ok == effect.ok && trail == old(trail) + effect.states && db == Final(old(db), effect.states)
    {
      hide DuckSpec.Apply, DuckSpec.SaveCursor, Advances;
      ok := Apply(e);
      if ok && !e.change.BypassesCursor() {
        SaveCursor(e.table, e.commitLsn, e.lsn);
      }
    }

    /** Land a feed, stopping at the first event the destination refuses. */
    method ApplyFeed(feed: seq<Event>) returns (totals: Totals, ok: bool)
      requires Coherent()
      modifies this
      ensures Coherent()
      ensures var effect := Run(old(db), key, feed);
              ok == effect.ok && trail == old(trail) + effect.states && db == Final(old(db), effect.states)
      ensures totals == Tally(old(db), key, feed, Totals(0, 0, 0, ""))
    {
      hide Land, Cursor, Final;
      totals := Totals(0, 0, 0, "");
      for i := 0 to |feed|
        invariant Coherent()
        invariant RunsOn(old(db), old(trail), feed, db, trail, key, feed[i..])
        invariant Tally(db, key, feed[i..], totals) == Tally(old(db), key, feed, Totals(0, 0, 0, ""))
      {
        var e := feed[i];
        assert feed[i..] == [e] + feed[i + 1..];
        RunStep(old(db), old(trail), feed, db, trail, key, e, feed[i + 1..]);
        TallyStep(db, key, e, feed[i + 1..], totals);
        var c := Cursor(db, e.table);
        if !e.change.BypassesCursor() && (e.commitLsn < c.commit || (e.commitLsn == c.commit && e.lsn <= c.record)) {
          totals := totals.(skipped := totals.skipped + 1);
        } else {
          ok := LandEvent(e);
          if !ok {
            return;
          }
          var furthest := if e.commitEndLsn > totals.cursor then e.commitEndLsn else totals.cursor;
          totals := Totals(totals.applied + 1, totals.skipped, furthest, e.table);
        }
      }
      RunEnd(db, key);
      ok := true;
    }
  }

  /** What is left to run from here completes the run that was started. */
  ghost predicate RunsOn(
    start: Database, before: seq<Database>, feed: seq<Event>,
    db: Database, trail: seq<Database>, flag: string, rest: seq<Event>)
  {
    var all, left := Run(start, flag, feed), Run(db, flag, rest);
    && all.ok == left.ok && before + all.states == trail + left.states
    && Final(start, all.states) == Final(db, left.states)
  }

  lemma RunEnd(db: Database, flag: string)
    ensures Run(db, flag, []) == Effect([], true) && Final(db, []) == db
  {
  }

  lemma RunStep(
    start: Database, before: seq<Database>, feed: seq<Event>,
    db: Database, trail: seq<Database>, flag: string, e: Event, rest: seq<Event>)
    requires RunsOn(start, before, feed, db, trail, flag, [e] + rest)
    ensures Skips(db, e) ==> RunsOn(start, before, feed, db, trail, flag, rest)
    ensures var land, all := Land(db, flag, e), Run(start, flag, feed);
            !Skips(db, e) ==>
              if land.ok then RunsOn(start, before, feed, Final(db, land.states), trail + land.states, flag, rest)
              else
                && !all.ok && before + all.states == trail + land.states
                && Final(start, all.states) == Final(db, land.states)
  {
    hide Land, Skips;
    assert ([e] + rest)[1..] == rest;
    var land := Land(db, flag, e);
    var rest' := Run(Final(db, land.states), flag, rest);
    assert trail + (land.states + rest'.states) == (trail + land.states) + rest'.states;
  }

  lemma TallyStep(db: Database, flag: string, e: Event, rest: seq<Event>, acc: Totals)
    ensures Tally(db, flag, [e] + rest, acc) ==
            if Skips(db, e) then Tally(db, flag, rest, acc.(skipped := acc.skipped + 1))
            else
              var land := Land(db, flag, e);
              if !land.ok then acc
              else
                Tally(Final(db, land.states), flag, rest,
                      Totals(acc.applied + 1, acc.skipped,
                             if e.commitEndLsn > acc.cursor then e.commitEndLsn else acc.cursor, e.table))
  {
    hide Land, Skips, Final;
    assert ([e] + rest)[1..] == rest;
  }

  lemma PutKeepsShape(t: Table, s: Statement)
    requires s.Put?
    ensures Exec(t, s).columns == t.columns && Exec(t, s).key == t.key
  {
  }

  lemma AddExtends(t: Table, c: ColumnSpec)
    ensures Exec(t, Add(c)).columns == t.columns + [c] && Exec(t, Add(c)).key == t.key
  {
  }

  lemma NothingToAdd(db: Database, table: string, want: seq<ColumnSpec>)
    requires table in db.tables
    ensures Growth(db, table, want[|want|..]) == []
  {
  }

  /** A catch-up of a strict prefix ends at the declaration, and leaves every other table alone. */
  lemma {:induction false} Caught(db: Database, table: string, want: seq<ColumnSpec>)
    requires table in db.tables && db.tables[table].columns <= want
    ensures var r := Final(db, Growth(db, table, want[|db.tables[table].columns|..]));
            && table in r.tables && r.tables[table].columns == want && r.tables[table].key == db.tables[table].key
            && (forall t :: t in db.tables && t != table ==> t in r.tables && r.tables[t] == db.tables[t])
    decreases |want| - |db.tables[table].columns|
  {
    hide Exec;
    var got := db.tables[table].columns;
    var missing := want[|got|..];
    if missing != [] {
      var next := ExecIn(db, table, Add(missing[0]));
      AddExtends(db.tables[table], missing[0]);
      assert next.tables[table].columns == want[..|got| + 1];
      assert want[|got| + 1..] == missing[1..];
      Caught(next, table, want);
    }
  }
}
