/**
 What a column-level change leaves in a DuckDB destination, cell by cell: when it lands, what becomes of
 the values of the column it names, and that nothing else moves.
 */
module SchemaChanges {
  import opened Feed
  import opened Destination
  import opened DuckSpec
  import Reconcile

  /** The type a feed type is declared with: the integers, the truth values, the floats, and the rest as text. */
  lemma DeclaredTypes(t: string)
    ensures DuckType(t) ==
            if t in {"INTEGER", "BIGINT", "TIMESTAMP"} then "BIGINT"
            else if t == "BOOLEAN" then "BOOLEAN"
            else if t in {"FLOAT", "DOUBLE", "REAL"} then "DOUBLE"
            else "VARCHAR"
  {
  }

  /** Two values that read the same: both NULL, or both printed alike. */
  predicate SameText(a: Value, b: Value) {
    (a == Null <==> b == Null) && Print(a) == Print(b)
  }

  /** Every other table is as it was, and so is every cursor. */
  ghost predicate OnlyTable(db: Database, next: Database, table: string) {
    && next.checkpoint == db.checkpoint && next.tables.Keys == db.tables.Keys
    && forall t :: t in db.tables && t != table ==> next.tables[t] == db.tables[t]
  }

  /** A row as it was but for its cells. */
  predicate OnlyCells(r: DestRow, next: DestRow) {
    next == r.(cells := next.cells)
  }

  lemma CastReadsTheSame(typ: string, v: Value)
    ensures SameText(Cast(typ, v), v)
    ensures typ != "VARCHAR" ==> Cast(typ, v) == v
    ensures typ == "VARCHAR" ==> !Cast(typ, v).Number? && !Cast(typ, v).Bool?
  {
  }

  /**
   A retype that lands keeps every row and every other column, gives the column its declared type, and
   leaves in it values that read as they did: NULL stays NULL, digits stay digits, and unless the new
   type is text the value is untouched.
   */
  lemma RetypeKeepsValues(db: Database, flag: string, e: Event)
    requires e.change.AlterColumnType? && e.table in db.tables && Apply(db, flag, e).ok
    ensures var next, c := Final(db, Apply(db, flag, e).states), e.change.column;
            && OnlyTable(db, next, e.table)
            && var t, u := db.tables[e.table], next.tables[e.table];
               && u.key == t.key && u.rows.Keys == t.rows.Keys && Names(u.columns) == Names(t.columns)
               && (forall i :: 0 <= i < |t.columns| && t.columns[i].name != c ==> u.columns[i] == t.columns[i])
               && (forall i :: 0 <= i < |t.columns| && t.columns[i].name == c ==>
                     TypeIn(DuckColumns(e.change.columns), c) == Some(u.columns[i].typ))
               && forall k :: k in t.rows ==>
                    Retyped(t.rows[k], u.rows[k], c, TypeIn(DuckColumns(e.change.columns), c))
  {
    var t, c := db.tables[e.table], e.change.column;
    var typ := TypeIn(DuckColumns(e.change.columns), c).value;
    forall k | k in t.rows
      ensures Retyped(t.rows[k], RowAfter(t.rows[k], Retype(c, typ)), c, Some(typ))
    {
      if c in t.rows[k].cells {
        CastReadsTheSame(typ, t.rows[k].cells[c]);
      }
    }
  }

  /** A row before and after one of its columns changes type. */
  predicate Retyped(r: DestRow, next: DestRow, c: string, typ: Option<string>) {
    && OnlyCells(r, next) && next.cells.Keys == r.cells.Keys
    && (forall n :: n in r.cells && n != c ==> next.cells[n] == r.cells[n])
    && (c in r.cells ==>
          && SameText(next.cells[c], r.cells[c])
          && (typ != Some("VARCHAR") ==> next.cells[c] == r.cells[c])
          && (typ == Some("VARCHAR") ==> !next.cells[c].Number? && !next.cells[c].Bool?))
  }

  /**
   A rename lands exactly when it names two columns of which the first is there and the second is free
   and no bookkeeping name, or when it finds itself done.
   */
  lemma RenameLandsIff(db: Database, flag: string, e: Event)
    requires e.change.RenameColumn? && e.table in db.tables && e.change.columns != []
    ensures var has, from, to := Names(db.tables[e.table].columns), e.change.from, e.change.to;
            Apply(db, flag, e).ok <==>
            from != "" && to != "" && (if from in has then to !in has && !Bookkeeping(to) else to in has)
  {
  }

  /** It moves the value under the old name to the new one in every row, the key column's included. */
  lemma RenameMovesValues(db: Database, flag: string, e: Event)
    requires e.change.RenameColumn? && e.table in db.tables && Apply(db, flag, e).ok
    requires e.change.from in Names(db.tables[e.table].columns)
    ensures var next, from, to := Final(db, Apply(db, flag, e).states), e.change.from, e.change.to;
            && OnlyTable(db, next, e.table)
            && var t, u := db.tables[e.table], next.tables[e.table];
               && u.key == (if t.key == from then to else t.key) && u.rows.Keys == t.rows.Keys
               && |u.columns| == |t.columns|
               && (forall i :: 0 <= i < |t.columns| ==>
                     && u.columns[i].typ == t.columns[i].typ
                     && u.columns[i].name == if t.columns[i].name == from then to else t.columns[i].name)
               && forall k :: k in t.rows ==> Renamed(t.rows[k], u.rows[k], from, to)
  {
  }

  /** A row before and after one of its columns changes name. */
  predicate Renamed(r: DestRow, next: DestRow, from: string, to: string) {
    && OnlyCells(r, next)
    && (forall n :: n in r.cells && n != from && n != to ==> n in next.cells && next.cells[n] == r.cells[n])
    && (forall n :: n in next.cells ==> n in r.cells || n == to)
    && (from in r.cells ==> to in next.cells && next.cells[to] == r.cells[from] && (from != to ==> from !in next.cells))
  }

  /** An added column lands exactly when its shape gives it a type and it is there already or is free. */
  lemma AddLandsIff(db: Database, flag: string, e: Event)
    requires e.change.AddColumn? && e.table in db.tables && e.change.columns != []
    ensures var has, c := Names(db.tables[e.table].columns), e.change.column;
            Apply(db, flag, e).ok <==> c != "" && c in Names(e.change.columns) && (c in has || !Bookkeeping(c))
  {
    TypeInIff(DuckColumns(e.change.columns), e.change.column);
    assert Names(DuckColumns(e.change.columns)) == Names(e.change.columns);
  }

  /** A new column is last, of its declared type, and NULL in every row. */
  lemma AddedIsNull(db: Database, flag: string, e: Event)
    requires e.change.AddColumn? && e.table in db.tables && Apply(db, flag, e).ok
    requires e.change.column !in Names(db.tables[e.table].columns)
    requires forall k :: k in db.tables[e.table].rows ==> e.change.column !in db.tables[e.table].rows[k].cells
    ensures var next, c := Final(db, Apply(db, flag, e).states), e.change.column;
            && OnlyTable(db, next, e.table)
            && var t, u := db.tables[e.table], next.tables[e.table];
               && u.key == t.key && u.rows.Keys == t.rows.Keys && |u.columns| == |t.columns| + 1
               && u.columns[..|t.columns|] == t.columns && u.columns[|t.columns|] in DuckColumns(e.change.columns)
               && u.columns[|t.columns|].name == c
               && forall k :: k in t.rows ==>
                    OnlyCells(t.rows[k], u.rows[k]) && u.rows[k].cells == t.rows[k].cells[c := Null]
  {
    TypeInIff(DuckColumns(e.change.columns), e.change.column);
  }

  /** A retype lands exactly when its shape gives a type to a column that is there and is not the key. */
  lemma RetypeLandsIff(db: Database, flag: string, e: Event)
    requires e.change.AlterColumnType? && e.table in db.tables && e.change.columns != []
    ensures var t, c := db.tables[e.table], e.change.column;
            Apply(db, flag, e).ok <==>
            c != "" && c in Names(e.change.columns) && c in Names(t.columns) && c != t.key
  {
    TypeInIff(DuckColumns(e.change.columns), e.change.column);
    assert Names(DuckColumns(e.change.columns)) == Names(e.change.columns);
  }

  lemma {:induction false} TypeInIff(columns: seq<ColumnSpec>, name: string)
    ensures TypeIn(columns, name).Some? <==> name in Names(columns)
    ensures TypeIn(columns, name).Some? ==> ColumnSpec(name, TypeIn(columns, name).value) in columns
    decreases |columns|
  {
    if columns != [] {
      TypeInIff(columns[1..], name);
      assert forall i :: 0 <= i < |columns| - 1 ==> Names(columns[1..])[i] == Names(columns)[i + 1];
      assert Names(columns)[0] == columns[0].name;
    }
  }

  /** A change of a table never seen makes it, with the shape it carries and the flag's column for a key. */
  lemma UnseenIsMade(db: Database, flag: string, e: Event)
    requires (e.change.AddColumn? || e.change.RenameColumn? || e.change.AlterColumnType?) && e.table !in db.tables
    ensures var columns, effect := DuckColumns(e.change.columns), Apply(db, flag, e);
            && (effect.ok <==> Reconcile.Proper(columns, flag))
            && (effect.ok ==>
                 var next := Final(db, effect.states);
                 next == db.(tables := db.tables[e.table := Table(columns, flag, map[])]))
  {
    var columns := DuckColumns(e.change.columns);
    Reconcile.DeclarableIff(columns, flag);
    hide Reconcile.Proper, Declarable;
    assert columns[|columns|..] == [];
  }
}
