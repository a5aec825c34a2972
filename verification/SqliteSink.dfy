/**
 The SQLite sink as it runs, proved against `SqliteSpec`. Its cache of key columns is always the
 destination's own and so does not show; its cache of columns is not, and is part of the specification.
 */
module SqliteSinks {
  import opened Feed
  import opened Destination
  import opened SqliteSpec
  import D = DuckSpec
  import Strings

  class SqliteSink {
    const key: string
    var db: D.Database
    var columns: Cache
    var keys: map<string, string>
    ghost var trail: seq<D.Database>

    /** A cached key is the destination's own primary key. */
    ghost predicate KeysTrue()
      reads this
    {
      forall t :: t in keys ==> t in db.tables && db.tables[t].key == keys[t] != ""
    }

    ghost function Now(): Process
      reads this
    {
      Process(db, columns)
    }

    constructor (destination: D.Database, key: string)
      ensures KeysTrue() && db == destination && this.key == key && trail == []
      ensures columns == map[] && keys == map[]
    {
      this.key, db, columns, keys, trail := key, destination, map[], map[], [];
    }

    /** One SQL statement taking effect. */
    method Commit(next: D.Database)
      modifies this`db, this`trail
      ensures db == next && trail == old(trail) + [next]
    {
      db, trail := next, trail + [next];
    }

    method KeyFor(table: string) returns (name: string)
      requires KeysTrue()
      modifies this`keys
      ensures KeysTrue()
      ensures name == if table in db.tables then KeyName(db.tables[table], key) else key
    {
      if table in keys {
        return keys[table];
      }
      if table in db.tables && db.tables[table].key != "" {
        keys := keys[table := db.tables[table].key];
        return keys[table];
      }
      return key;
    }

    /** Add the columns a shape has and the destination does not; only ever to one that is behind. */
    method CatchUp(table: string, want: seq<ColumnSpec>, declared: bool) returns (grown: bool)
      requires KeysTrue() && table in db.tables
      modifies this`db, this`trail
      ensures KeysTrue()
      ensures grown <==> Behind(old(db).tables[table].columns, want, declared)
      ensures var states := SqliteSpec.CatchUp(old(db), table, want, declared);
              trail == old(trail) + states && db == D.Final(old(db), states)
    {
      hide AffinityOf, AddIfNew;
      var got := db.tables[table].columns;
      if |got| >= |want| {
        return false;
      }
      for i := 0 to |got|
        invariant forall j :: 0 <= j < i ==> SameColumn(got[j], want[j], declared)
      {
        if !SameColumn(got[i], want[i], declared) {
          return false;
        }
      }
      ghost var all := Growth(db, table, want[|got|..]);
      for i := |got| to |want|
        invariant KeysTrue() && table in db.tables
        invariant trail + Growth(db, table, want[i..]) == old(trail) + all
        invariant D.Final(db, Growth(db, table, want[i..])) == D.Final(old(db), all)
      {
        assert want[i..][0] == want[i] && want[i..][1..] == want[i + 1..];
        AddKeepsKey(db.tables[table], want[i]);
        var next := db.(tables := db.tables[table := AddIfNew(db.tables[table], want[i])]);
        assert Growth(db, table, want[i..]) == [next] + Growth(next, table, want[i + 1..]);
        Commit(next);
      }
      return true;
    }

    method SchemaAgrees(want: seq<ColumnSpec>, got: seq<ColumnSpec>) returns (ok: bool)
      ensures ok <==> Agree(want, got)
    {
      hide AffinityOf;
      var n := if |got| < |want| then |got| else |want|;
      for i := 0 to n
        invariant forall j :: 0 <= j < i ==> !Conflicts(want, got, j)
      {
        if want[i].name != got[i].name {
          if |want| == |got| {
            assert Conflicts(want, got, i);
            return false;
          }
          continue;
        }
        if AffinityOf(got[i].typ) == IntegerAffinity && AffinityOf(want[i].typ) == TextAffinity {
          assert Conflicts(want, got, i);
          return false;
        }
      }
      return true;
    }

    /** Create, catch up, check; and cache the columns that were declared. */
    method EnsureTable(table: string, cols: seq<ColumnSpec>, declared: bool) returns (ok: bool)
      requires KeysTrue()
      modifies this
      ensures KeysTrue()
      ensures var r := Ensure(old(Now()), key, table, cols, declared);
              ok == r.ok && trail == old(trail) + r.states && Now() == End(old(Now()), r)
    {
      hide Growth, Behind, Agree, D.Bookkeeping;
      var want := Spelled(cols);
      var k := KeyFor(table);
      if table !in db.tables {
        // The engine refuses a CREATE TABLE that names a column twice, this sink's own included.
        if !Distinct(Names(want)) || exists n :: n in Names(want) && D.Bookkeeping(n) {
          return false;
        }
        Commit(db.(tables := db.tables[table := Made(want, k)]));
        NotBehindItself(want, declared);
      } else {
        Commit(db);
      }
      var grown := CatchUp(table, want, declared);
      if declared {
        ok := SchemaAgrees(want, db.tables[table].columns);
        if !ok {
          return;
        }
      }
      columns := columns[table := Names(cols)];
      return true;
    }

    /** Settle a table's columns: the cache, or a guess from the row. */
    method EnsureFromRow(table: string, row: Row) returns (ok: bool)
      requires KeysTrue()
      modifies this
      ensures KeysTrue()
      ensures var r := if table in old(columns) then Result([], old(columns), true)
                       else Ensure(old(Now()), key, table, Inferred(row), false);
              ok == r.ok && trail == old(trail) + r.states && Now() == End(old(Now()), r)
    {
      if table in columns {
        return true;
      }
      ok := EnsureTable(table, Inferred(row), false);
    }

    /** Build the table again with new definitions, carrying every row across, in one transaction. */
    method RebuildTable(table: string, cols: seq<ColumnSpec>) returns (ok: bool)
      requires KeysTrue() && table in db.tables
      modifies this`db, this`trail, this`keys
      ensures ok <==> MayRebuild(old(db).tables[table], cols)
      ensures !ok ==> KeysTrue() && db == old(db) && trail == old(trail)
      ensures ok ==> trail == old(trail) + [db]
      ensures ok ==> db == old(db).(tables := old(db).tables[table := RebuiltTable(old(db).tables[table], key, cols)])
      ensures forall t :: t in keys && t != table ==> t in db.tables && db.tables[t].key == keys[t] != ""
    {
      var names := Names(cols);
      var have := Names(db.tables[table].columns);
      var k := KeyFor(table);
      for i := 0 to |names|
        invariant forall j :: 0 <= j < i ==> names[j] in have
      {
        if names[i] !in have {
          return false;
        }
      }
      if !Distinct(names) {
        return false;
      }
      var was := db.tables[table];
      var rows := map x | x in was.rows :: Rebuilt(was.rows[x], names);
      Commit(db.(tables := db.tables[table := Made(Spelled(cols), k).(rows := rows)]));
      return true;
    }

    /** Evolve the destination for a column-level change, and re-read both caches from it. */
    method ApplySchemaChange(e: Event) returns (ok: bool)
      requires IsColumnChange(e.change) && KeysTrue()
      modifies this
      ensures KeysTrue()
      ensures var r := ApplySchema(old(Now()), key, e);
              ok == r.ok && trail == old(trail) + r.states && Now() == End(old(Now()), r)
    {
      hide Exec, Spelled, Ensure;
      if |e.change.columns| == 0 {
        return false;
      }
      if e.table !in db.tables {
        ok := EnsureTable(e.table, e.change.columns, true);
        return;
      }
      var t := db.tables[e.table];
      match e.change {
        case AddColumn(cols, name) =>
          var typ := LastTypeIn(Spelled(cols), name);
          if name == "" || typ.None? {
            return false;
          }
          Commit(db.(tables := db.tables[e.table := AddIfNew(t, ColumnSpec(name, typ.value))]));
        case RenameColumn(_, from, to) =>
          if from == "" || to == "" {
            return false;
          }
          if from in Names(t.columns) {
            if to in Names(t.columns) || D.Bookkeeping(to) {
              return false;
            }
            Commit(db.(tables := db.tables[e.table := Exec(t, Rename(from, to))]));
          } else {
            assert db.(tables := db.tables[e.table := t]) == db;
            Commit(db);
          }
        case AlterColumnType(cols, _, _, _) =>
          ok := RebuildTable(e.table, cols);
          if !ok {
            return;
          }
      }
      keys := keys - {e.table};
      columns := columns[e.table := Names(db.tables[e.table].columns)];
      return true;
    }

    /**
     The guarded upsert, its values bound column by column from the cache. A row the guard lets through
     holds the image in the columns bound and what it held in the others, at the event's stamp and by its
     writer, unmarked; nothing else changes.
     */
    method Upsert(e: Event) returns (ok: bool)
      requires KeysTrue() && e.change.IsRow() && e.table in db.tables && e.table in columns
      modifies this`db, this`trail, this`keys
      ensures KeysTrue()
      ensures ok <==> Binds(old(db).tables[e.table], columns[e.table], e.change.Image())
      ensures !ok ==> db == old(db) && trail == old(trail)
      ensures ok ==> trail == old(trail) + [db]
      ensures ok ==> db == D.ExecIn(old(db), e.table, PutOf(old(db).tables[e.table], columns[e.table], e))
      ensures ok ==> Lands(old(db).tables[e.table], columns[e.table], e, db.tables[e.table])
    {
      hide Exec, Lands, PutOf;
      var t, row := db.tables[e.table], e.change.Image();
      var k := KeyFor(e.table);
      var cols := columns[e.table];
      if t.key == "" || k !in cols || k !in row || row[k] == Null {
        return false;
      }
      var fits, cells := Bindings(t, cols, row, row[k]);
      if !fits {
        return false;
      }
      var put := Put(row[k], cells, D.StampOf(e), e.change.Delete?, e.writer);
      PutIs(t, cols, e, cells);
      PutLands(t, cols, e);
      Commit(D.ExecIn(db, e.table, put));
      return true;
    }

    /** Bind the cached columns one by one; the engine refuses one the table does not have. */
    static method Bindings(t: Table, cols: seq<string>, row: Row, k: Value) returns (ok: bool, cells: Row)
      ensures ok <==> forall c :: c in cols ==> c in Names(t.columns)
      ensures ok ==> cells == map c | c in Names(t.columns) :: if c in cols then Imaged(row, c) else Held(t, k, c)
    {
      hide Imaged, Held;
      var have := Names(t.columns);
      cells := map c | c in have :: Held(t, k, c);
      for i := 0 to |cols|
        invariant forall j :: 0 <= j < i ==> cols[j] in have
        invariant cells == map c | c in have :: if c in cols[..i] then Imaged(row, c) else Held(t, k, c)
      {
        if cols[i] !in have {
          return false, cells;
        }
        cells := cells[cols[i] := Imaged(row, cols[i])];
      }
      assert cols[..|cols|] == cols;
      return true, cells;
    }

    method Apply(e: Event) returns (ok: bool)
      requires KeysTrue()
      modifies this
      ensures KeysTrue()
      ensures var r := SqliteSpec.Apply(old(Now()), key, e);
              ok == r.ok && trail == old(trail) + r.states && Now() == End(old(Now()), r)
    {
      hide Ensure, ApplySchema, ApplyRow;
      match e.change {
        case CreateTable(cols) =>
          ok := EnsureTable(e.table, cols, true);
        case DropTable =>
          Commit(db.(tables := db.tables - {e.table}));
          columns := columns - {e.table};
          keys := keys - {e.table};
          ok := true;
        case AddColumn(_, _) =>
          ok := ApplySchemaChange(e);
        case RenameColumn(_, _, _) =>
          ok := ApplySchemaChange(e);
        case AlterColumnType(_, _, _, _) =>
          ok := ApplySchemaChange(e);
        case _ =>
          ok := ApplyRowEvent(e);
      }
    }

    method ApplyRowEvent(e: Event) returns (ok: bool)
      requires KeysTrue() && e.change.IsRow()
      modifies this
      ensures KeysTrue()
      ensures var r := ApplyRow(old(Now()), key, e);
              ok == r.ok && trail == old(trail) + r.states && Now() == End(old(Now()), r)
    {
      hide Ensure, Exec, PutOf, Inferred, Binds, Lands;
      ok := EnsureFromRow(e.table, e.change.Image());
      if ok && e.table in db.tables && e.table in columns {
        ok := Upsert(e);
      } else {
        ok := false;
      }
    }

    /** Advance a table's resume point: it becomes the later of the two, and no other moves. */
    method SaveCursor(table: string, commitLsn: uint64, recordLsn: uint64)
      requires KeysTrue()
      modifies this`db, this`trail
      ensures KeysTrue() && trail == old(trail) + [db]
      ensures D.Advances(old(db), db, table, Stamp(Signed(commitLsn), Signed(recordLsn)))
      ensures db == D.SaveCursor(old(db), table, Stamp(Signed(commitLsn), Signed(recordLsn)))
    {
      var s := Stamp(Signed(commitLsn), Signed(recordLsn));
      if table !in db.checkpoint {
        Commit(db.(checkpoint := db.checkpoint[table := s]));
        return;
      }
      var held := db.checkpoint[table];
      if s.commit > held.commit || (s.commit == held.commit && s.record > held.record) {
        Commit(db.(checkpoint := db.checkpoint[table := s]));
      } else {
        Commit(db);
      }
    }

    /** Apply one event and record its position. */
    method LandEvent(e: Event) returns (ok: bool)
      requires KeysTrue()
      modifies this
      ensures KeysTrue()
      ensures var r := Land(old(Now()), key, e);
              ok == r.ok && trail == old(trail) + r.states && Now() == End(old(Now()), r)
    {
      hide SqliteSpec.Apply, D.SaveCursor, D.Advances;
      ok := Apply(e);
      if ok && !e.change.BypassesCursor() {
        SaveCursor(e.table, e.commitLsn, e.lsn);
      }
    }

    /** Land a feed, stopping at the first event the destination refuses. */
    method ApplyFeed(feed: seq<Event>) returns (ok: bool)
      requires KeysTrue()
      modifies this
      ensures KeysTrue()
      ensures var r := Run(old(Now()), key, feed);
              ok == r.ok && trail == old(trail) + r.states && Now() == End(old(Now()), r)
    {
      hide Land, D.Cursor, End;
      for i := 0 to |feed|
        invariant KeysTrue()
        invariant RunsOn(old(Now()), old(trail), feed, Now(), trail, key, feed[i..])
      {
        var e := feed[i];
        assert feed[i..] == [e] + feed[i + 1..];
        RunStep(old(Now()), old(trail), feed, Now(), trail, key, e, feed[i + 1..]);
        var c := D.Cursor(db, e.table);
        if e.change.BypassesCursor() || !(e.commitLsn < c.commit || (e.commitLsn == c.commit && e.lsn <= c.record)) {
          ok := LandEvent(e);
          if !ok {
            return;
          }
        }
      }
      RunEnd(Now(), key);
      ok := true;
    }
  }

  /** What is left to run from here completes the run that was started. */
  ghost predicate RunsOn(
    start: Process, before: seq<D.Database>, feed: seq<Event>,
    now: Process, trail: seq<D.Database>, flag: string, rest: seq<Event>)
  {
    var all, left := Run(start, flag, feed), Run(now, flag, rest);
    all.ok == left.ok && before + all.states == trail + left.states && End(start, all) == End(now, left)
  }

  lemma RunEnd(p: Process, flag: string)
    ensures Run(p, flag, []) == Result([], p.columns, true) && End(p, Run(p, flag, [])) == p
  {
  }

  lemma RunStep(
    start: Process, before: seq<D.Database>, feed: seq<Event>,
    now: Process, trail: seq<D.Database>, flag: string, e: Event, rest: seq<Event>)
    requires RunsOn(start, before, feed, now, trail, flag, [e] + rest)
    ensures D.Skips(now.db, e) ==> RunsOn(start, before, feed, now, trail, flag, rest)
    ensures var land, all := Land(now, flag, e), Run(start, flag, feed);
            !D.Skips(now.db, e) ==>
              if land.ok then RunsOn(start, before, feed, End(now, land), trail + land.states, flag, rest)
              else !all.ok && before + all.states == trail + land.states && End(start, all) == End(now, land)
  {
    hide Land, D.Skips;
    assert ([e] + rest)[1..] == rest;
    var land := Land(now, flag, e);
    var rest' := Run(End(now, land), flag, rest);
    assert trail + (land.states + rest'.states) == (trail + land.states) + rest'.states;
  }

  lemma AddKeepsKey(t: Table, c: ColumnSpec)
    ensures AddIfNew(t, c).key == t.key && SameMeta(t, AddIfNew(t, c))
  {
  }

  lemma NotBehindItself(want: seq<ColumnSpec>, declared: bool)
    ensures !Behind(want, want, declared) && Agree(want, want)
  {
  }

  /** What an issued upsert leaves, told from the row: the guard, the bound columns, and the rest as it was. */
  ghost predicate Lands(t: Table, cached: seq<string>, e: Event, u: Table)
    requires e.change.IsRow() && t.key in e.change.Image()
  {
    var row := e.change.Image();
    var k := row[t.key];
    && u.columns == t.columns && u.key == t.key && k in u.rows
    && (forall x :: x != k ==> (x in u.rows <==> x in t.rows) && (x in t.rows ==> u.rows[x] == t.rows[x]))
    && (if k in t.rows && !Above(D.StampOf(e), t.rows[k].stamp) then u.rows[k] == t.rows[k]
        else
          && u.rows[k].stamp == D.StampOf(e) && u.rows[k].deleted == e.change.Delete? && u.rows[k].writer == e.writer
          && !u.rows[k].retracted && (forall c :: c in u.rows[k].cells <==> c in Names(t.columns))
          && (forall c :: c in Names(t.columns) ==>
                u.rows[k].cells[c] == if c in cached then Imaged(row, c) else Held(t, k, c)))
  }

  lemma PutIs(t: Table, cols: seq<string>, e: Event, cells: Row)
    requires e.change.IsRow() && t.key in e.change.Image()
    requires var row := e.change.Image();
             cells == map c | c in Names(t.columns) :: if c in cols then Imaged(row, c) else Held(t, row[t.key], c)
    ensures PutOf(t, cols, e) == Put(e.change.Image()[t.key], cells, D.StampOf(e), e.change.Delete?, e.writer)
    ensures Exec(t, PutOf(t, cols, e)).key == t.key
  {
  }

  lemma PutLands(t: Table, cached: seq<string>, e: Event)
    requires e.change.IsRow() && t.key in e.change.Image()
    ensures Lands(t, cached, e, Exec(t, PutOf(t, cached, e)))
  {
  }

  // ---------------------------------------------------------------------------------------------
  // The rebuild, and the cache that a re-declaration leaves.

  /** Every column-level change keeps every row with its stamp, tombstone, writer and mark. */
  lemma EvolvedKeepsMeta(t: Table, flag: string, c: Change)
    requires IsColumnChange(c) && Evolved(t, flag, c).Some?
    ensures SameMeta(t, Evolved(t, flag, c).value)
  {
  }

  /** A rebuild keeps every row's stamp, tombstone, writer and mark, and each value the new shape names. */
  lemma RebuildKeepsRows(r: DestRow, names: seq<string>)
    requires forall c :: c in r.cells ==> c in names
    ensures Rebuilt(r, names) == r
  {
  }
}
