/**
 The DuckDB sink against the plain materialised table when columns change type. The fold re-encodes what
 it holds as the feed would print it and the destination casts it, so the two agree as text.
 */
module RetypedRefinement {
  import opened Feed
  import opened Destination
  import opened DuckSpec
  import opened TableFold
  import opened Replay
  import opened CursorPath
  import opened Refinement
  import opened SchemaChanges

  // --- a fold that casts as the destination does ------------------------------------------------

  /** One column of a row, cast. */
  function CastIn(row: Row, column: string, typ: string): Row {
    map c | c in row :: if c == column then Cast(typ, row[c]) else row[c]
  }

  function CastAll(rows: map<string, Row>, column: string, typ: string): map<string, Row> {
    map k | k in rows :: CastIn(rows[k], column, typ)
  }

  /** The naive fold, but for a retype, which casts the rows held to the type the destination takes. */
  function CastFold(v: View, c: Change): Option<View> {
    if !c.AlterColumnType? then Fold(v, c)
    else
      match TypeIn(DuckColumns(c.columns), c.column)
      case None => None
      case Some(typ) => Some(v.(columns := Names(c.columns), rows := CastAll(v.rows, c.column, typ)))
  }

  function CastFoldAll(v: View, feed: seq<Change>): Option<View> {
    if feed == [] then Some(v)
    else
      match CastFoldAll(v, feed[..|feed| - 1])
      case None => None
      case Some(w) => CastFold(w, feed[|feed| - 1])
  }

  // --- the two folds agree as text --------------------------------------------------------------

  ghost predicate SameRow(a: Row, b: Row) {
    a.Keys == b.Keys && forall c :: c in a ==> SameText(a[c], b[c])
  }

  /** The same key, columns and rows, every value printed alike. */
  ghost predicate Alike(v: View, u: View) {
    && v.key == u.key && v.columns == u.columns && v.rows.Keys == u.rows.Keys
    && forall k :: k in v.rows.Keys ==> SameRow(v.rows[k], u.rows[k])
  }

  lemma EncodeIsAlike(a: Row, b: Row, column: string, typ: string, columns: set<string>)
    requires SameRow(a, b) && columns <= {column}
    ensures SameRow(EncodeIn(a, columns), CastIn(b, column, typ))
  {
    forall c | c in a
      ensures SameText(EncodeIn(a, columns)[c], CastIn(b, column, typ)[c])
    {
      CastReadsTheSame(typ, b[c]);
      EncodingKeepsPrint(a[c]);
    }
  }

  lemma MoveIsAlike(a: Row, b: Row, from: string, to: string)
    requires SameRow(a, b)
    ensures SameRow(MoveIn(a, from, to), MoveIn(b, from, to))
  {
  }

  lemma AlikeStep(v: View, u: View, c: Change)
    requires Alike(v, u) && CastFold(u, c).Some?
    ensures Fold(v, c).Some? && Alike(Fold(v, c).value, CastFold(u, c).value)
  {
    hide SameRow;
    if c.AlterColumnType? {
      RetypeIsAlike(v, u, c);
    } else if c.RenameColumn? {
      forall k | k in v.rows
        ensures SameRow(MoveIn(v.rows[k], c.from, c.to), MoveIn(u.rows[k], c.from, c.to))
      {
        MoveIsAlike(v.rows[k], u.rows[k], c.from, c.to);
      }
    } else if c.IsRow() {
      SameRowReflexive(c.Image());
    }
  }

  lemma SameRowReflexive(a: Row)
    ensures SameRow(a, a)
  {
  }

  lemma RetypeIsAlike(v: View, u: View, c: Change)
    requires c.AlterColumnType? && Alike(v, u) && CastFold(u, c).Some?
    ensures Alike(Fold(v, c).value, CastFold(u, c).value)
  {
    hide SameRow, EncodeIn, CastIn;
    var typ := TypeIn(DuckColumns(c.columns), c.column).value;
    forall k | k in v.rows
      ensures SameRow(v.rows[k], CastIn(u.rows[k], c.column, typ))
      ensures SameRow(EncodeIn(v.rows[k], {c.column}), CastIn(u.rows[k], c.column, typ))
    {
      EncodeIsAlike(v.rows[k], u.rows[k], c.column, typ, {});
      EncodeIsAlike(v.rows[k], u.rows[k], c.column, typ, {c.column});
      EncodeNothing(v.rows[k]);
    }
  }

  lemma EncodeNothing(row: Row)
    ensures EncodeIn(row, {}) == row
  {
  }

  lemma {:induction false} FoldsAlike(key: string, feed: seq<Change>)
    requires CastFoldAll(NewView(key), feed).Some?
    ensures FoldAll(NewView(key), feed).Some?
    ensures Alike(FoldAll(NewView(key), feed).value, CastFoldAll(NewView(key), feed).value)
    decreases |feed|
  {
    hide Fold, CastFold, Alike;
    if feed == [] {
      AlikeAtStart(key);
    } else {
      FoldsAlike(key, feed[..|feed| - 1]);
      AlikeStep(FoldAll(NewView(key), feed[..|feed| - 1]).value,
                CastFoldAll(NewView(key), feed[..|feed| - 1]).value, feed[|feed| - 1]);
    }
  }

  lemma AlikeAtStart(key: string)
    ensures Alike(NewView(key), NewView(key))
  {
  }

  // --- a retype on both sides -------------------------------------------------------------------

  lemma CastShows(cells: Row, row: Row, column: string, typ: string)
    requires Shows(cells, row)
    ensures Shows(Carry(cells, Retype(column, typ)), CastIn(row, column, typ))
  {
  }

  lemma RetypedRow(v: View, names: seq<string>, k: Value, r: DestRow, column: string, typ: string)
    requires RowMatches(v, names, k, r)
    ensures RowMatches(v.(rows := CastAll(v.rows, column, typ)), names, k, RowAfter(r, Retype(column, typ)))
  {
    hide Shows;
    if !r.deleted {
      CastShows(r.cells, v.rows[Print(k)], column, typ);
    }
  }

  /** A column cast on both sides keeps them the same. */
  lemma RetypeStepMatches(v: View, t: Table, c: Change)
    requires c.AlterColumnType? && Matches(v, t) && CastFold(v, c).Some? && Names(c.columns) == Names(t.columns)
    ensures Matches(CastFold(v, c).value, Exec(t, Retype(c.column, TypeIn(DuckColumns(c.columns), c.column).value)))
  {
    hide RowMatches, RowAfter, CastIn, TypeIn;
    var typ := TypeIn(DuckColumns(c.columns), c.column).value;
    var s := Retype(c.column, typ);
    LiveKept(v, t, s);
    assert Names(Exec(t, s).columns) == Names(t.columns);
    forall k | k in t.rows
      ensures RowMatches(CastFold(v, c).value, Names(t.columns), k, RowAfter(t.rows[k], s))
    {
      RetypedRow(v, Names(t.columns), k, t.rows[k], c.column, typ);
      SameRowsMatch(v.(rows := CastAll(v.rows, c.column, typ)), CastFold(v, c).value, Names(t.columns), k,
                    RowAfter(t.rows[k], s));
    }
  }

  lemma SameRowsMatch(v: View, w: View, names: seq<string>, k: Value, r: DestRow)
    requires RowMatches(v, names, k, r) && w.rows == v.rows
    ensures RowMatches(w, names, k, r)
  {
  }

  lemma RetypeInDb(s: Standing, db: Database, flag: string, e: Event, keys: set<Value>)
    requires Holds(s, db, flag, e.table, keys) && e.change.AlterColumnType? && e.table in db.tables
    requires Names(e.change.columns) == s.shape && Apply(db, flag, e).ok
    ensures CastFold(s.view, e.change).Some?
    ensures Holds(s.(view := CastFold(s.view, e.change).value), Final(db, Apply(db, flag, e).states),
                  flag, e.table, keys)
  {
    hide Matches, StampsAre;
    var t := db.tables[e.table];
    var typ := TypeIn(DuckColumns(e.change.columns), e.change.column);
    assert typ.Some?;
    var statement := Retype(e.change.column, typ.value);
    RetypeStepMatches(s.view, t, e.change);
    SchemaKeepsStamps(t, statement, s.stamps);
    assert Names(Exec(t, statement).columns) == Names(t.columns);
    hide Exec, TypeIn;
  }

  // --- the whole feed -------------------------------------------------------------------------

  /** An event fits the shape in force, a retype of one of its columns included. */
  ghost predicate FitsShape(shape: seq<string>, c: Change) {
    if c.AlterColumnType? then Names(c.columns) == shape && c.column in shape else Consistent(shape, c)
  }

  /** A single-table feed in the source's order, as `SourceFeed` has it, with retypes. */
  ghost predicate RetypingFeed(flag: string, table: string, feed: seq<Event>, keys: set<Value>) {
    feed == [] || (
      var init, e := feed[..|feed| - 1], feed[|feed| - 1];
      && RetypingFeed(flag, table, init, keys)
      && e.table == table
      && match FoldAll(NewView(flag), Changes(init))
         case None => true
         case Some(w) => FitsShape(Shape(init), e.change) && Newer(w, Stamps(NewView(flag), init), e, keys))
  }

  ghost predicate Refined(db: Database, flag: string, table: string, feed: seq<Event>, keys: set<Value>) {
    var folded, landed := CastFoldAll(NewView(flag), Changes(feed)), GuardOnly(db, flag, feed).0;
    && folded.Some?
    && Holds(Standing(folded.value, Shape(feed), Stamps(NewView(flag), feed)), landed, flag, table, keys)
  }

  /** One event, taken by both sides. */
  lemma EventInDb(s: Standing, db: Database, flag: string, e: Event, keys: set<Value>)
    requires Apart(keys) && Holds(s, db, flag, e.table, keys) && FitsShape(s.shape, e.change)
    requires Newer(s.view, s.stamps, e, keys) && Land(db, flag, e).ok
    ensures CastFold(s.view, e.change).Some?
    ensures Holds(Standing(CastFold(s.view, e.change).value, ShapeAfter(s.shape, e.change),
                           NextStamps(s.view, s.stamps, e)),
                  Final(db, Land(db, flag, e).states), flag, e.table, keys)
  {
    if e.change.AlterColumnType? {
      hide Matches, StampsAre, ApplySchema, TypeIn, CastAll;
      RetypeInDb(s, db, flag, e, keys);
    } else {
      hide Holds, Land, Apart, Newer, Consistent;
      LandInDb(s, db, flag, e, keys);
    }
  }

  lemma StampsNext(flag: string, feed: seq<Event>, u: View)
    requires feed != [] && FoldAll(NewView(flag), Changes(feed[..|feed| - 1])).Some?
    requires u.key == FoldAll(NewView(flag), Changes(feed[..|feed| - 1])).value.key
    ensures Stamps(NewView(flag), feed) == NextStamps(u, Stamps(NewView(flag), feed[..|feed| - 1]), feed[|feed| - 1])
  {
    hide FoldAll;
  }

  lemma SameKeyNewer(w: View, u: View, stamps: map<Value, Stamp>, e: Event, keys: set<Value>)
    requires w.key == u.key && Newer(w, stamps, e, keys)
    ensures Newer(u, stamps, e, keys)
  {
  }

  lemma RefinedAfterOne(db: Database, flag: string, table: string, feed: seq<Event>, keys: set<Value>)
    requires feed != [] && Apart(keys) && RetypingFeed(flag, table, feed, keys)
    requires GuardOnly(db, flag, feed).1 && Refined(db, flag, table, feed[..|feed| - 1], keys)
    ensures Refined(db, flag, table, feed, keys)
  {
    hide Land, CastFold, Fold, Holds, Apart, Newer, FitsShape, Changes, ShapeAfter, Stamps, NextStamps;
    var init, e := feed[..|feed| - 1], feed[|feed| - 1];
    ChangesSnoc(feed);
    FoldsAlike(flag, Changes(init));
    var w, u := FoldAll(NewView(flag), Changes(init)).value, CastFoldAll(NewView(flag), Changes(init)).value;
    var stamps, at := Stamps(NewView(flag), init), GuardOnly(db, flag, init).0;
    SameKeyNewer(w, u, stamps, e, keys);
    EventInDb(Standing(u, Shape(init), stamps), at, flag, e, keys);
    StampsNext(flag, feed, u);
  }

  lemma {:induction false} GuardRefinesCastFold(
    db: Database, flag: string, table: string, feed: seq<Event>, keys: set<Value>)
    requires table !in db.tables && Apart(keys) && RetypingFeed(flag, table, feed, keys)
    requires GuardOnly(db, flag, feed).1
    ensures Refined(db, flag, table, feed, keys)
    decreases |feed|
  {
    if feed == [] {
      hide Matches, StampsAre;
    } else {
      hide Land, CastFold, Refined, Apart, Newer, FitsShape;
      GuardRefinesCastFold(db, flag, table, feed[..|feed| - 1], keys);
      RefinedAfterOne(db, flag, table, feed, keys);
    }
  }

  /**
   The sink refines the naive fold as text, retypes included: whatever lands is accepted by the fold, and
   there is a table that the destination, with tombstones and bookkeeping hidden, shows exactly and that
   has the fold's key, columns and rows with every value printed as the fold prints it.
   */
  lemma SinkRefinesFoldAsText(db: Database, flag: string, table: string, feed: seq<Event>, keys: set<Value>)
    returns (shown: View)
    requires table !in db.tables && db.checkpoint == map[]
    requires Apart(keys) && RetypingFeed(flag, table, feed, keys) && Ordered(feed)
    requires Outcome(db, flag, feed).1
    ensures FoldAll(NewView(flag), Changes(feed)).Some?
    ensures MatchesIn(shown, Outcome(db, flag, feed).0, flag, table)
    ensures Alike(FoldAll(NewView(flag), Changes(feed)).value, shown)
  {
    hide Outcome, GuardOnly, FoldAll, RetypingFeed, MatchesIn, StampsIn, Ordered, Apart, Stamps, Shape, InForce;
    hide CastFoldAll, Alike;
    InOrderNothingIsSkipped(db, flag, feed, |feed|);
    assert feed[..|feed|] == feed;
    GuardRefinesCastFold(db, flag, table, feed, keys);
    FoldsAlike(flag, Changes(feed));
    shown := CastFoldAll(NewView(flag), Changes(feed)).value;
  }
}
