/**
 What one row event leaves in a DuckDB destination, said of the row and of everything around it: when it
 lands, what is written and when the guard keeps what was there.
 */
module RowWrites {
  import opened Feed
  import opened Destination
  import opened DuckSpec
  import opened SchemaChanges
  import Reconcile
  import Strings

  /** A 64-bit position as a signed column holds it. */
  predicate Holds64(stored: int, position: uint64) {
    -0x8000_0000_0000_0000 <= stored < 0x8000_0000_0000_0000 &&
    (stored == position || stored == position - 0x1_0000_0000_0000_0000)
  }

  /** A row just written for an event: the image in the table's columns, NULL where it is silent. */
  ghost predicate WrittenFor(r: DestRow, columns: seq<ColumnSpec>, e: Event)
    requires e.change.IsRow()
  {
    && (forall c :: c in r.cells <==> c in Names(columns))
    && (forall c :: c in r.cells ==> r.cells[c] == if c in e.change.Image() then e.change.Image()[c] else Null)
    && Holds64(r.stamp.commit, e.commitLsn) && Holds64(r.stamp.record, e.lsn)
    && r.deleted == e.change.Delete? && r.writer == e.writer && !r.retracted
  }

  /** Strictly later than the row held, compared as stored. */
  predicate Later(r: DestRow, held: Stamp) {
    r.stamp.commit > held.commit || (r.stamp.commit == held.commit && r.stamp.record > held.record)
  }

  /**
   A row event of a table that is there lands exactly when its image has a value for the key column. It
   then touches one key of one table: a row written for the event, if it is the first for that key or is
   strictly later than the one held, and otherwise nothing at all.
   */
  lemma RowLandsIff(db: Database, flag: string, e: Event) returns (row: DestRow)
    requires e.change.IsRow() && e.table in db.tables
    ensures var t, image := db.tables[e.table], e.change.Image();
            && (Apply(db, flag, e).ok <==> t.key in image && image[t.key] != Null)
            && WrittenFor(row, t.columns, e)
            && (Apply(db, flag, e).ok ==>
                 var next, k := Final(db, Apply(db, flag, e).states), image[t.key];
                 && OnlyTable(db, next, e.table)
                 && next.tables[e.table] ==
                    if k !in t.rows || Later(row, t.rows[k].stamp) then t.(rows := t.rows[k := row]) else t)
  {
    var t := db.tables[e.table];
    row := DestRow(Cells(t.columns, e.change.Image()), StampOf(e), e.change.Delete?, e.writer, false);
    if Apply(db, flag, e).ok {
      var next := Final(db, Apply(db, flag, e).states);
      assert next == ExecIn(db, e.table, PutOf(t, e));
    }
  }

  /** The type a column is guessed to have from one value. */
  predicate GuessedType(v: Value, typ: string) {
    match v
    case Number(digits) => typ == if Strings.IsInt64(digits) then "BIGINT" else "DOUBLE"
    case Bool(_) => typ == "BOOLEAN"
    case _ => typ == "VARCHAR"
  }

  /** A table made for a row: the image's columns in order, each of the type its value has, and the one row. */
  ghost predicate MadeFor(t: Table, flag: string, e: Event)
    requires e.change.IsRow()
  {
    var image := e.change.Image();
    && t.key == flag && flag in image && Names(t.columns) == Strings.Sorted(image.Keys)
    && (forall c :: c in t.columns ==> c.name in image && GuessedType(image[c.name], c.typ))
    && t.rows.Keys == {image[flag]} && WrittenFor(t.rows[image[flag]], t.columns, e)
  }

  /**
   The first row of a table that is not there makes it, with the image's columns in order, each of the type
   its value has, keyed by the flag's column; it lands exactly when the image has a value for that column
   and names none of the sink's own.
   */
  lemma FirstRowMakesTable(db: Database, flag: string, e: Event)
    requires e.change.IsRow() && e.table !in db.tables
    ensures var image, effect := e.change.Image(), Apply(db, flag, e);
            && (effect.ok <==> flag in image && image[flag] != Null && image.Keys !! Reconcile.OWN_COLUMNS)
            && (effect.ok ==>
                 var next := Final(db, effect.states);
                 && e.table in next.tables && next.checkpoint == db.checkpoint
                 && (forall t :: t in db.tables ==> t in next.tables && next.tables[t] == db.tables[t])
                 && MadeFor(next.tables[e.table], flag, e))
  {
    var image := e.change.Image();
    var columns := InferredColumns(image);
    InferredIsProper(image, flag);
    MadeByRow(db, flag, e);
    hide Ensure, Strings.Sorted, Declarable, InferredColumns, Apply, MadeFor, Reconcile.Proper;
    if Ensure(db, flag, e.table, columns).ok {
      var made := Final(db, Ensure(db, flag, e.table, columns).states);
      OneRow(made, flag, e);
    }
  }

  /** The row of a table just made for it. */
  lemma OneRow(made: Database, flag: string, e: Event)
    requires e.change.IsRow() && e.table in made.tables
    requires made.tables[e.table] == Table(InferredColumns(e.change.Image()), flag, map[])
    ensures var image := e.change.Image(); Apply(made, flag, e).ok <==> flag in image && image[flag] != Null
    ensures Apply(made, flag, e).ok ==>
              var next := Final(made, Apply(made, flag, e).states);
              OnlyTable(made, next, e.table) && MadeFor(next.tables[e.table], flag, e)
  {
    hide InferredColumns, Apply, WrittenFor, MadeFor;
    var row := RowLandsIff(made, flag, e);
    if Apply(made, flag, e).ok {
      RowOfMade(flag, e, row);
    }
  }

  lemma RowOfMade(flag: string, e: Event, row: DestRow)
    requires e.change.IsRow() && flag in e.change.Image()
    requires WrittenFor(row, InferredColumns(e.change.Image()), e)
    ensures var t := Table(InferredColumns(e.change.Image()), flag, map[]);
            MadeFor(t.(rows := t.rows[e.change.Image()[flag] := row]), flag, e)
  {
    hide InferredColumns, WrittenFor, GuessedType, Strings.Sorted, Names;
    var image := e.change.Image();
    InferredIs(image);
    var columns, rows := InferredColumns(image), (map[])[image[flag] := row];
    assert rows.Keys == {image[flag]} && rows[image[flag]] == row;
    assert MadeFor(Table(columns, flag, rows), flag, e);
  }

  /** The columns guessed from an image. */
  lemma InferredIs(image: Row)
    ensures var columns := InferredColumns(image);
            && Names(columns) == Strings.Sorted(image.Keys)
            && forall c :: c in columns ==> c.name in image && GuessedType(image[c.name], c.typ)
  {
    var columns, names := InferredColumns(image), Strings.Sorted(image.Keys);
    hide Strings.Sorted, Strings.IsInt64;
    assert Names(columns) == names;
    forall c | c in columns
      ensures c.name in image && GuessedType(image[c.name], c.typ)
    {
      var i :| 0 <= i < |columns| && columns[i] == c;
    }
  }

  /** ... and when they will do for a table. */
  lemma InferredIsProper(image: Row, flag: string)
    ensures Reconcile.Proper(InferredColumns(image), flag) <==>
            flag in image && image.Keys !! Reconcile.OWN_COLUMNS
  {
    var columns, names := InferredColumns(image), Strings.Sorted(image.Keys);
    InferredIs(image);
    hide Strings.Sorted, Strings.IsInt64, InferredColumns;
    if Reconcile.Proper(columns, flag) {
      forall n | n in image.Keys
        ensures n !in Reconcile.OWN_COLUMNS
      {
        var i :| 0 <= i < |names| && names[i] == n;
        assert columns[i] in columns;
      }
    }
    assert flag in image ==> columns != [];
  }

  /** The table is made first, and then the row is one of a table that is there. */
  lemma MadeByRow(db: Database, flag: string, e: Event)
    requires e.change.IsRow() && e.table !in db.tables
    ensures var columns := InferredColumns(e.change.Image());
            var ensured := Ensure(db, flag, e.table, columns);
            var made := Final(db, ensured.states);
            && (ensured.ok <==> Reconcile.Proper(columns, flag))
            && (!ensured.ok ==> !Apply(db, flag, e).ok)
            && (ensured.ok ==>
                 && e.table in made.tables && made.tables[e.table] == Table(columns, flag, map[])
                 && made.checkpoint == db.checkpoint
                 && (forall t :: t in db.tables ==> t in made.tables && made.tables[t] == db.tables[t])
                 && Apply(db, flag, e).ok == Apply(made, flag, e).ok
                 && (Apply(made, flag, e).ok ==>
                      Final(db, Apply(db, flag, e).states) == Final(made, Apply(made, flag, e).states)))
  {
    var columns := InferredColumns(e.change.Image());
    Reconcile.Reconciliation(db, flag, e.table, columns);
    hide Ensure, InferredColumns, Reconcile.Proper, Reconcile.RowsCarried, Exec, PutOf;
  }
}
