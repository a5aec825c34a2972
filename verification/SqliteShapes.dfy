/**
 What declarations and column-level changes leave in a SQLite destination, said of its columns and its
 rows: when each lands, what shape the table then has, and what became of the values.
 */
module SqliteShapes {
  import opened Feed
  import opened Destination
  import opened SqliteSpec
  import opened SqliteReplay
  import D = DuckSpec
  import Reconcile
  import S = SchemaChanges
  import Strings

  // --- types ----------------------------------------------------------------------------------

  /** The word occurs somewhere in the text. */
  ghost predicate Occurs(s: string, word: string) {
    exists i: nat :: OccursAt(s, word, i)
  }

  predicate OccursAt(s: string, word: string, i: nat) {
    i + |word| <= |s| && s[i..i + |word|] == word
  }

  lemma OccursLater(s: string, word: string, i: nat)
    requires s != []
    ensures OccursAt(s[1..], word, i) <==> OccursAt(s, word, i + 1)
  {
    if i + 1 + |word| <= |s| {
      assert s[1..][i..i + |word|] == s[i + 1..i + 1 + |word|];
    }
  }

  lemma OccursFirst(s: string, word: string)
    ensures OccursAt(s, word, 0) <==> word <= s
  {
  }

  lemma OccursInNothing(word: string, i: nat)
    ensures OccursAt([], word, i) ==> i == 0
  {
  }

  lemma {:induction false} ContainsIff(s: string, word: string)
    ensures Contains(s, word) <==> Occurs(s, word)
    decreases |s|
  {
    hide OccursAt;
    OccursFirst(s, word);
    if s == [] {
      forall i: nat
        ensures OccursAt(s, word, i) ==> i == 0
      {
        OccursInNothing(word, i);
      }
    } else {
      ContainsIff(s[1..], word);
      forall i: nat
        ensures OccursAt(s[1..], word, i) <==> OccursAt(s, word, i + 1)
      {
        OccursLater(s, word, i);
      }
      if i: nat :| OccursAt(s, word, i) && i > 0 {
        assert OccursAt(s[1..], word, i - 1);
      }
    }
  }

  /** The storage class of a declared type: the five rules in order, each on the words in it. */
  lemma AffinityIs(declared: string)
    ensures var d := Upper(Strings.TrimSpace(declared));
            AffinityOf(declared) ==
            if Occurs(d, "INT") then IntegerAffinity
            else if Occurs(d, "CHAR") || Occurs(d, "CLOB") || Occurs(d, "TEXT") then TextAffinity
            else if d == "" || Occurs(d, "BLOB") then BlobAffinity
            else if Occurs(d, "REAL") || Occurs(d, "FLOA") || Occurs(d, "DOUB") then RealAffinity
            else NumericAffinity
  {
    hide Contains, Occurs;
    var d := Upper(Strings.TrimSpace(declared));
    forall word
      ensures Contains(d, word) <==> Occurs(d, word)
    {
      ContainsIff(d, word);
    }
  }

  /** Feed types whose columns hold integers, real numbers, and anything else as text. */
  lemma SpelledAffinity(t: string)
    ensures AffinityOf(SqlType(t)) ==
            if t in {"INTEGER", "BOOLEAN", "BIGINT", "TIMESTAMP"} then IntegerAffinity
            else if t == "FLOAT" then RealAffinity
            else TextAffinity
    ensures SqlType(t) in {"INTEGER", "REAL", "TEXT"}
  {
    WordAffinities();
  }

  lemma WordAffinities()
    ensures AffinityOf("INTEGER") == IntegerAffinity && AffinityOf("REAL") == RealAffinity
    ensures AffinityOf("TEXT") == TextAffinity
  {
    hide AffinityOf;
    IntegerIs();
    RealIs();
    TextIs();
  }

  lemma IntegerIs()
    ensures AffinityOf("INTEGER") == IntegerAffinity
  {
    hide Contains, Strings.TrimSpace;
    Strings.TrimTight("INTEGER");
    assert Upper("INTEGER") == "INTEGER";
    WordsOf("INTEGER", "INT", 0);
  }

  lemma TextIs()
    ensures AffinityOf("TEXT") == TextAffinity
  {
    hide Contains, Strings.TrimSpace;
    Strings.TrimTight("TEXT");
    assert Upper("TEXT") == "TEXT";
    WordsOf("TEXT", "TEXT", 0);
    NoWord("TEXT", "INT");
  }

  lemma RealIs()
    ensures AffinityOf("REAL") == RealAffinity
  {
    hide Contains, Strings.TrimSpace;
    Strings.TrimTight("REAL");
    assert Upper("REAL") == "REAL";
    WordsOf("REAL", "REAL", 0);
    NoWord("REAL", "INT");
    NoWord("REAL", "CHAR");
    NoWord("REAL", "CLOB");
    NoWord("REAL", "TEXT");
    NoWord("REAL", "BLOB");
  }

  lemma WordsOf(s: string, word: string, i: nat)
    requires OccursAt(s, word, i)
    ensures Contains(s, word)
  {
    ContainsIff(s, word);
  }

  lemma NoWord(s: string, word: string)
    requires |s| <= 4 && word != "" && word[0] !in s
    ensures !Contains(s, word)
  {
    ContainsIff(s, word);
  }

  // --- declarations -----------------------------------------------------------------------------

  /** The destination has the first of the declared columns, and fewer; a declared one of the same affinity. */
  predicate IsBehind(got: seq<ColumnSpec>, cols: seq<ColumnSpec>, declared: bool) {
    && |got| < |cols|
    && forall i :: 0 <= i < |got| ==>
         got[i].name == cols[i].name && (declared ==> AffinityOf(got[i].typ) == AffinityOf(SqlType(cols[i].typ)))
  }

  /** The columns a declaration leaves: those there, and after them the ones it has in addition. */
  function Grown(got: seq<ColumnSpec>, cols: seq<ColumnSpec>, declared: bool): seq<ColumnSpec> {
    if IsBehind(got, cols, declared)
    then got + seq(|cols| - |got|, i requires 0 <= i < |cols| - |got| =>
                     ColumnSpec(cols[|got| + i].name, SqlType(cols[|got| + i].typ)))
    else got
  }

  /** As many columns have the same names, and none that holds integers is declared as text. */
  predicate Reconcilable(got: seq<ColumnSpec>, cols: seq<ColumnSpec>) {
    && (|got| == |cols| ==> Names(got) == Names(cols))
    && forall i :: 0 <= i < |got| && i < |cols| && got[i].name == cols[i].name ==>
         !(AffinityOf(got[i].typ) == IntegerAffinity && AffinityOf(SqlType(cols[i].typ)) == TextAffinity)
  }

  lemma BehindIff(got: seq<ColumnSpec>, cols: seq<ColumnSpec>, declared: bool)
    ensures Behind(got, Spelled(cols), declared) <==> IsBehind(got, cols, declared)
    ensures Behind(got, Spelled(cols), declared) ==> got + Spelled(cols)[|got|..] == Grown(got, cols, declared)
  {
    hide AffinityOf, SqlType;
  }

  lemma AgreeIff(got: seq<ColumnSpec>, cols: seq<ColumnSpec>)
    ensures Agree(Spelled(cols), got) <==> Reconcilable(got, cols)
  {
    hide AffinityOf, SqlType;
    var want := Spelled(cols);
    if Agree(want, got) {
      forall i | 0 <= i < |got| && i < |cols|
        ensures |got| == |cols| ==> Names(got)[i] == Names(cols)[i]
        ensures got[i].name == cols[i].name ==>
                  !(AffinityOf(got[i].typ) == IntegerAffinity && AffinityOf(SqlType(cols[i].typ)) == TextAffinity)
      {
        assert !Conflicts(want, got, i);
      }
    }
    if Reconcilable(got, cols) {
      forall i | 0 <= i < |want| && i < |got|
        ensures !Conflicts(want, got, i)
      {
        assert |got| == |cols| ==> Names(got)[i] == Names(cols)[i];
      }
    }
  }

  lemma {:induction false} GrowthCarries(db: D.Database, table: string, missing: seq<ColumnSpec>)
    requires table in db.tables
    ensures var r := D.Final(db, Growth(db, table, missing));
            && table in r.tables && Reconcile.RowsCarried(db.tables[table], r.tables[table])
            && S.OnlyTable(db, r, table) && r.tables[table].key == db.tables[table].key
    decreases |missing|
  {
    hide Exec, D.Bookkeeping;
    if missing == [] {
      SameCarried(db.tables[table]);
    } else {
      var next := Growth(db, table, missing)[0];
      var t, u := db.tables[table], next.tables[table];
      AddCarries(t, missing[0]);
      GrowthCarries(next, table, missing[1..]);
      var end := D.Final(db, Growth(db, table, missing));
      assert end == D.Final(next, Growth(next, table, missing[1..]));
      Reconcile.CarriedTransitive(t, u, end.tables[table]);
    }
  }

  lemma SameCarried(t: Table)
    ensures Reconcile.RowsCarried(t, t)
  {
  }

  lemma AddCarries(t: Table, c: ColumnSpec)
    ensures Reconcile.RowsCarried(t, AddIfNew(t, c)) && AddIfNew(t, c).key == t.key
  {
    SameCarried(t);
    Reconcile.AddCarries(t, c);
  }

  /** What a declaration, or a row's own columns, leave of a table that is there. */
  lemma ShapeAfterDeclaring(p: Process, flag: string, table: string, cols: seq<ColumnSpec>, declared: bool)
    requires table in p.db.tables && Creatable(Names(cols))
    ensures var t, r := p.db.tables[table], Ensure(p, flag, table, cols, declared);
            var end := End(p, r);
            && S.OnlyTable(p.db, end.db, table)
            && end.db.tables[table].columns == Grown(t.columns, cols, declared)
            && end.db.tables[table].key == t.key && Reconcile.RowsCarried(t, end.db.tables[table])
            && (r.ok <==> !declared || Reconcilable(end.db.tables[table].columns, cols))
            && end.columns == if r.ok then p.columns[table := Names(cols)] else p.columns
  {
    hide AffinityOf, Growth, Creatable, Behind, Spelled, Agree, Grown, Reconcilable;
    var t, want := p.db.tables[table], Spelled(cols);
    BehindIff(t.columns, cols, declared);
    CatchUpIsEmptyIff(p.db, table, want, declared);
    SameCarried(t);
    NotGrown(t.columns, cols, declared);
    if Behind(t.columns, want, declared) {
      BehindIsShorter(t.columns, want, declared);
      var missing := want[|t.columns|..];
      SpelledNames(cols, t.columns, declared);
      GrowthResumes(p.db, table, missing, |missing| - 1);
      assert missing[..|missing|] == missing;
      GrowthCarries(p.db, table, missing);
    }
    AgreeIff(D.Final(p.db, CatchUp(p.db, table, want, declared)).tables[table].columns, cols);
  }

  lemma NotGrown(got: seq<ColumnSpec>, cols: seq<ColumnSpec>, declared: bool)
    ensures !IsBehind(got, cols, declared) ==> Grown(got, cols, declared) == got
  {
  }

  /** A table that is not there is made as declared, unless a name comes twice or is one of the sink's own. */
  lemma ShapeOfNewTable(p: Process, flag: string, table: string, cols: seq<ColumnSpec>, declared: bool)
    requires table !in p.db.tables
    ensures var r := Ensure(p, flag, table, cols, declared);
            && (r.ok <==> Distinct(Names(cols)) && forall n :: n in Names(cols) ==> n !in Reconcile.OWN_COLUMNS)
            && (!r.ok ==> End(p, r) == p)
            && (r.ok ==>
                 && table in End(p, r).db.tables && End(p, r).columns == p.columns[table := Names(cols)]
                 && End(p, r).db == p.db.(tables := p.db.tables[table := End(p, r).db.tables[table]])
                 && var u := End(p, r).db.tables[table];
                    && u.rows == map[] && u.key == (if flag in Names(cols) then flag else "")
                    && |u.columns| == |cols|
                    && forall i :: 0 <= i < |cols| ==>
                         u.columns[i].name == cols[i].name && u.columns[i].typ == SqlType(cols[i].typ))
  {
    Reconcile.OwnColumnsIff();
  }

  // --- column-level changes ---------------------------------------------------------------------

  /** A change of a table that is there and that comes with a shape. */
  predicate Changes(p: Process, e: Event) {
    IsColumnChange(e.change) && e.table in p.db.tables && e.change.columns != []
  }

  /** Each change lands exactly when the destination can make it, or finds it made. */
  lemma ChangeLandsIff(p: Process, flag: string, e: Event)
    requires Changes(p, e)
    ensures var has, c, shape := Names(p.db.tables[e.table].columns), e.change, Names(e.change.columns);
            Apply(p, flag, e).ok <==>
            match c
            case AddColumn(_, column) => column != "" && column in shape
            case RenameColumn(_, from, to) =>
              from != "" && to != "" && (from in has ==> to !in has && to !in Reconcile.OWN_COLUMNS)
            case AlterColumnType(_, _, _, _) => Distinct(shape) && forall n :: n in shape ==> n in has
  {
    Reconcile.OwnColumnsIff();
    hide D.Bookkeeping, Spelled, LastTypeIn, AddIfNew, Exec, RebuiltTable;
    if e.change.AddColumn? {
      LastTypeIff(Spelled(e.change.columns), e.change.column);
    }
  }

  lemma {:induction false} LastTypeIff(columns: seq<ColumnSpec>, name: string)
    ensures LastTypeIn(columns, name).Some? <==> name in Names(columns)
    ensures LastTypeIn(columns, name).Some? ==>
              exists i :: 0 <= i < |columns| && LastOf(columns, name, i) &&
                          columns[i].typ == LastTypeIn(columns, name).value
    decreases |columns|
  {
    if columns != [] {
      var n := |columns| - 1;
      LastTypeIff(columns[..n], name);
      assert Names(columns)[n] == columns[n].name;
      assert forall i :: 0 <= i < n ==> Names(columns[..n])[i] == Names(columns)[i];
      if columns[n].name == name {
        assert LastOf(columns, name, n);
      } else if LastTypeIn(columns[..n], name).Some? {
        var i :| 0 <= i < n && LastOf(columns[..n], name, i) &&
                 columns[..n][i].typ == LastTypeIn(columns[..n], name).value;
        assert LastOf(columns, name, i);
      }
    }
  }

  /** The last column of a name. */
  predicate LastOf(columns: seq<ColumnSpec>, name: string, i: nat)
    requires i < |columns|
  {
    columns[i].name == name && forall j :: i < j < |columns| ==> columns[j].name != name
  }

  /** A row after a rebuild: its bookkeeping, and the values of the columns the new shape names. */
  ghost predicate Narrowed(r: DestRow, next: DestRow, names: seq<string>) {
    && S.OnlyCells(r, next)
    && (forall c :: c in next.cells <==> c in r.cells && c in names)
    && forall c :: c in next.cells ==> next.cells[c] == r.cells[c]
  }

  ghost predicate AddLeaves(t: Table, u: Table, column: string) {
    if column in Names(t.columns) || column in Reconcile.OWN_COLUMNS then u == t
    else
      && u.key == t.key && |u.columns| == |t.columns| + 1 && u.columns[..|t.columns|] == t.columns
      && u.columns[|t.columns|].name == column && u.rows.Keys == t.rows.Keys
      && forall k :: k in t.rows ==>
           && S.OnlyCells(t.rows[k], u.rows[k])
           && (column !in t.rows[k].cells ==> u.rows[k].cells == t.rows[k].cells[column := Null])
  }

  ghost predicate RenameLeaves(t: Table, u: Table, from: string, to: string) {
    if from !in Names(t.columns) then u == t
    else
      && u.key == (if t.key == from then to else t.key) && u.rows.Keys == t.rows.Keys
      && forall k :: k in t.rows ==> S.Renamed(t.rows[k], u.rows[k], from, to)
  }

  ghost predicate RetypeLeaves(t: Table, u: Table, flag: string, cols: seq<ColumnSpec>) {
    var key := if t.key != "" then t.key else flag;
    && u.columns == Spelled(cols) && u.key == (if key in Names(cols) then key else "")
    && u.rows.Keys == t.rows.Keys && forall k :: k in t.rows ==> Narrowed(t.rows[k], u.rows[k], Names(cols))
  }

  lemma AddedLeaves(t: Table, c: ColumnSpec)
    ensures AddLeaves(t, AddIfNew(t, c), c.name)
  {
    Reconcile.OwnColumnsIff();
    hide D.Bookkeeping;
  }

  lemma RenamedLeaves(t: Table, from: string, to: string)
    requires from in Names(t.columns)
    ensures RenameLeaves(t, Exec(t, Rename(from, to)), from, to)
  {
  }

  lemma RebuiltLeaves(t: Table, flag: string, cols: seq<ColumnSpec>)
    ensures RetypeLeaves(t, RebuiltTable(t, flag, cols), flag, cols)
  {
    hide Spelled;
  }

  /**
   What a change that lands leaves: a column added with NULL in every row, a value moved to its new name, or
   a table rebuilt to the shape with the values under the names it keeps; the cache takes the new names.
   */
  lemma ChangeLeaves(p: Process, flag: string, e: Event)
    requires Changes(p, e) && Apply(p, flag, e).ok
    ensures var end, t, c := End(p, Apply(p, flag, e)), p.db.tables[e.table], e.change;
            && S.OnlyTable(p.db, end.db, e.table)
            && var u := end.db.tables[e.table];
               && end.columns == p.columns[e.table := Names(u.columns)]
               && match c
                  case AddColumn(_, column) => AddLeaves(t, u, column)
                  case RenameColumn(_, from, to) => RenameLeaves(t, u, from, to)
                  case AlterColumnType(cols, _, _, _) => RetypeLeaves(t, u, flag, cols)
  {
    hide Spelled, LastTypeIn, AddIfNew, Exec, RebuiltTable, AddLeaves, RetypeLeaves, D.Bookkeeping;
    var t := p.db.tables[e.table];
    match e.change {
      case AddColumn(cols, column) =>
        AddedLeaves(t, ColumnSpec(column, LastTypeIn(Spelled(cols), column).value));
      case RenameColumn(_, from, to) =>
        if from in Names(t.columns) {
          RenamedLeaves(t, from, to);
        }
      case AlterColumnType(cols, _, _, _) =>
        RebuiltLeaves(t, flag, cols);
    }
  }

  // --- rows ---------------------------------------------------------------------------------------

  /**
   A row event of a table that is there and cached lands exactly when every cached column is in the table,
   the table's primary key is one of them, and the image has a value for it.
   */
  lemma RowLandsIff(p: Process, flag: string, e: Event)
    requires e.change.IsRow() && e.table in p.db.tables && e.table in p.columns
    ensures var t, cached, image := p.db.tables[e.table], p.columns[e.table], e.change.Image();
            Apply(p, flag, e).ok <==>
            && (forall c :: c in cached ==> c in Names(t.columns))
            && t.key != "" && t.key in cached && t.key in image && image[t.key] != Null
  {
  }

  /** The columns guessed from a row: its own, in order, and all of them text. */
  lemma GuessedColumns(row: Row)
    ensures Names(Inferred(row)) == Strings.Sorted(row.Keys)
    ensures forall c :: c in Inferred(row) ==> c.typ == "TEXT" && AffinityOf(SqlType(c.typ)) == TextAffinity
  {
    hide Strings.Sorted, AffinityOf;
    SpelledAffinity("TEXT");
  }

  /** A change of a table never seen makes it, with the shape it carries. */
  lemma UnseenIsMade(p: Process, flag: string, e: Event)
    requires IsColumnChange(e.change) && e.table !in p.db.tables && e.change.columns != []
    ensures var shape, r := Names(e.change.columns), Apply(p, flag, e);
            && (r.ok <==> Distinct(shape) && forall n :: n in shape ==> n !in Reconcile.OWN_COLUMNS)
            && (!r.ok ==> End(p, r) == p)
            && (r.ok ==>
                 && e.table in End(p, r).db.tables && End(p, r).columns == p.columns[e.table := shape]
                 && End(p, r).db.tables[e.table].rows == map[]
                 && Names(End(p, r).db.tables[e.table].columns) == shape)
  {
    ShapeOfNewTable(p, flag, e.table, e.change.columns, true);
    hide Ensure;
  }
}
