/**
 The table a consumer materialises from the feed: a map of rows indexed by the printed key, folded
 one event at a time, and evolved in place when a column is renamed or retyped.
 */
module TableFold {
  import opened Feed

  /** The value of a materialised table. */
  datatype View = View(key: string, columns: seq<string>, rows: map<string, Row>)

  function NewView(key: string): View {
    View(key, [], map[])
  }

  /** The feed types whose values ship as JSON strings. */
  predicate StringEncoded(feedType: string) {
    feedType == "BIGINT" || feedType == "DECIMAL" || feedType == "TIMESTAMP"
  }

  /** A value re-encoded the way the feed would render it as a string. */
  function AsFeedString(v: Value): Value {
    match v
    case Null => Null
    case Text(_) => v
    case _ => Text(Print(v))
  }

  /** Move a row's value from one name to another; the old name goes. */
  function MoveIn(row: Row, from: string, to: string): Row {
    if from in row then row[to := row[from]] - {from} else row
  }

  /** Re-encode the named columns of a row. */
  function EncodeIn(row: Row, columns: set<string>): Row {
    map c | c in row :: if c in columns then AsFeedString(row[c]) else row[c]
  }

  function MoveAll(rows: map<string, Row>, from: string, to: string): map<string, Row> {
    map k | k in rows :: MoveIn(rows[k], from, to)
  }

  function EncodeAll(rows: map<string, Row>, columns: set<string>): map<string, Row> {
    map k | k in rows :: EncodeIn(rows[k], columns)
  }

  /** One event folded into the table; `None` when a row has no key column. */
  function Fold(v: View, c: Change): Option<View> {
    match c
    case CreateTable(columns) => Some(v.(columns := Names(columns)))
    case AddColumn(columns, _) => Some(v.(columns := Names(columns)))
    case RenameColumn(columns, from, to) =>
      if from == "" || to == "" then Some(v.(columns := Names(columns)))
      else Some(View(if v.key == from then to else v.key, Names(columns), MoveAll(v.rows, from, to)))
    case AlterColumnType(columns, column, _, toType) =>
      if column == "" || !StringEncoded(toType) then Some(v.(columns := Names(columns)))
      else Some(v.(columns := Names(columns), rows := EncodeAll(v.rows, {column})))
    case DropTable => Some(v.(columns := [], rows := map[]))
    case Delete(before) =>
      if v.key in before then Some(v.(rows := v.rows - {Print(before[v.key])})) else None
    case _ =>
      if v.key in c.after then Some(v.(rows := v.rows[Print(c.after[v.key]) := c.after])) else None
  }

  function FoldAll(v: View, feed: seq<Change>): Option<View> {
    if feed == [] then Some(v)
    else
      match FoldAll(v, feed[..|feed| - 1])
      case None => None
      case Some(w) => Fold(w, feed[|feed| - 1])
  }

  // ---------------------------------------------------------------------------------------------
  // The table as it is updated in place.

  class MaterialisedTable {
    var key: string
    var columns: seq<string>
    var rows: map<string, Row>

    ghost function Contents(): View
      reads this
    {
      View(key, columns, rows)
    }

    constructor (key: string)
      ensures Contents() == NewView(key)
    {
      this.key, columns, rows := key, [], map[];
    }

    method AdoptColumns(declared: seq<ColumnSpec>)
      modifies this`columns
      ensures columns == Names(declared)
    {
      columns := [];
      for i := 0 to |declared|
        invariant columns == Names(declared)[..i]
      {
        columns := columns + [declared[i].name];
      }
    }

    /** Walk the rows held, in any order, moving the renamed value in each. */
    method MoveValues(from: string, to: string)
      modifies this`rows
      ensures rows == MoveAll(old(rows), from, to)
    {
      var todo := rows.Keys;
      while todo != {}
        invariant todo <= rows.Keys == old(rows).Keys
        invariant forall k :: k in rows ==>
          rows[k] == if k in todo then old(rows)[k] else MoveIn(old(rows)[k], from, to)
        decreases todo
      {
        var k :| k in todo;
        var row := rows[k];
        if from in row {
          row := row[to := row[from]];
          row := row - {from};
        }
        rows := rows[k := row];
        todo := todo - {k};
      }
    }

    /** Walk the rows held, re-encoding one column in each. */
    method EncodeValues(column: string)
      modifies this`rows
      ensures rows == EncodeAll(old(rows), {column})
    {
      var todo := rows.Keys;
      while todo != {}
        invariant todo <= rows.Keys == old(rows).Keys
        invariant forall k :: k in rows ==>
          rows[k] == if k in todo then old(rows)[k] else EncodeIn(old(rows)[k], {column})
        decreases todo
      {
        var k :| k in todo;
        var row := rows[k];
        if column in row {
          row := row[column := AsFeedString(row[column])];
        }
        assert row == EncodeIn(rows[k], {column});
        rows := rows[k := row];
        todo := todo - {k};
      }
    }

    method Apply(c: Change) returns (ok: bool)
      modifies this
      ensures ok <==> Fold(old(Contents()), c).Some?
      ensures Contents() == if ok then Fold(old(Contents()), c).value else old(Contents())
    {
      match c {
        case CreateTable(declared) =>
          AdoptColumns(declared);
        case AddColumn(declared, _) =>
          AdoptColumns(declared);
        case RenameColumn(declared, from, to) =>
          AdoptColumns(declared);
          if from != "" && to != "" {
            if key == from {
              key := to;
            }
            MoveValues(from, to);
          }
        case AlterColumnType(declared, column, _, toType) =>
          AdoptColumns(declared);
          if column != "" && StringEncoded(toType) {
            EncodeValues(column);
          }
        case DropTable =>
          rows := map[];
          columns := [];
        case Delete(before) =>
          if key !in before {
            return false;
          }
          rows := rows - {Print(before[key])};
        case _ =>
          if key !in c.after {
            return false;
          }
          rows := rows[Print(c.after[key]) := c.after];
      }
      return true;
    }
  }

  // ---------------------------------------------------------------------------------------------
  // The index.

  /** Each row is indexed by the printed value of its key column. */
  ghost predicate IndexSound(v: View) {
    forall k :: k in v.rows ==> v.key in v.rows[k] && Print(v.rows[k][v.key]) == k
  }

  /** A rename that lands on the key column, in a row that carries the renamed one. */
  ghost predicate OverwritesKey(v: View, c: Change) {
    && c.RenameColumn? && c.from != "" && c.to != "" && c.to == v.key
    && exists k :: k in v.rows && c.from in v.rows[k] && (c.from == c.to || Print(v.rows[k][c.from]) != k)
  }

  /** A value the feed would send as a string: NULL stays NULL, and anything else is the text it printed. */
  lemma EncodingKeepsPrint(v: Value)
    ensures AsFeedString(v) == if v == Null then Null else Text(Print(v))
    ensures Print(AsFeedString(v)) == Print(v)
    ensures AsFeedString(AsFeedString(v)) == AsFeedString(v)
  {
  }

  /**
   A retype to one of the types that ship as strings leaves in its column, in every row, NULL or the text
   of what was there, and every other value as it was. A retype to any other type changes no row.
   */
  lemma RetypeReencodes(v: View, c: Change)
    requires c.AlterColumnType? && c.column != ""
    ensures Fold(v, c).Some?
    ensures var w := Fold(v, c).value;
            && w.key == v.key && w.columns == Names(c.columns) && w.rows.Keys == v.rows.Keys
            && (c.toType in {"BIGINT", "DECIMAL", "TIMESTAMP"} ==>
                  forall k, n :: k in v.rows && n in v.rows[k] ==>
                    && w.rows[k].Keys == v.rows[k].Keys
                    && w.rows[k][n] ==
                       if n == c.column && v.rows[k][n] != Null then Text(Print(v.rows[k][n])) else v.rows[k][n])
            && (c.toType !in {"BIGINT", "DECIMAL", "TIMESTAMP"} ==> w.rows == v.rows)
  {
    forall k, n | k in v.rows && n in v.rows[k]
      ensures EncodeIn(v.rows[k], {c.column})[n] ==
              if n == c.column && v.rows[k][n] != Null then Text(Print(v.rows[k][n])) else v.rows[k][n]
    {
      EncodingKeepsPrint(v.rows[k][n]);
    }
  }

  /** A drop forgets every row and column, and no other event but a delete takes a row away. */
  lemma OnlyDropsForget(v: View, c: Change)
    requires Fold(v, c).Some?
    ensures var w := Fold(v, c).value;
            && (c.DropTable? ==> w == NewView(v.key))
            && (!c.DropTable? && !c.Delete? ==> v.rows.Keys <= w.rows.Keys)
            && (c.Delete? ==> v.key in c.before && w.rows == v.rows - {Print(c.before[v.key])})
  {
  }

  /** A row event is refused exactly when its image has no key column, a NULL in it being filed as `<nil>`. */
  lemma RowFoldsIff(v: View, c: Change)
    requires c.IsRow()
    ensures Fold(v, c).Some? <==> v.key in c.Image()
    ensures !c.Delete? && v.key in c.Image() ==>
              var k := if c.Image()[v.key] == Null then "<nil>" else Print(c.Image()[v.key]);
              Fold(v, c) == Some(v.(rows := v.rows[k := c.Image()]))
  {
  }

  /** The index stays sound through every event, except exactly a rename onto the key that changes what it prints. */
  lemma IndexStep(v: View, c: Change)
    requires IndexSound(v) && Fold(v, c).Some?
    ensures IndexSound(Fold(v, c).value) <==> !OverwritesKey(v, c)
  {
    var w := Fold(v, c).value;
    if c.RenameColumn? {
      if OverwritesKey(v, c) {
        var k :| k in v.rows && c.from in v.rows[k] && (c.from == c.to || Print(v.rows[k][c.from]) != k);
        assert k in w.rows && w.rows[k] == MoveIn(v.rows[k], c.from, c.to);
      }
    } else if c.AlterColumnType? {
      forall k | k in w.rows
        ensures v.key in w.rows[k] && Print(w.rows[k][v.key]) == k
      {
        EncodingKeepsPrint(v.rows[k][v.key]);
      }
    }
  }

  /** A feed that never renames a column onto the key. */
  ghost predicate KeepsKey(v: View, feed: seq<Change>) {
    feed == [] || (
      var init, last := feed[..|feed| - 1], feed[|feed| - 1];
      KeepsKey(v, init) && (FoldAll(v, init).Some? ==> !OverwritesKey(FoldAll(v, init).value, last)))
  }

  /** In every reachable table each map key is the printed key-column value of its row. */
  lemma {:induction false} IndexAlwaysSound(key: string, feed: seq<Change>)
    requires KeepsKey(NewView(key), feed) && FoldAll(NewView(key), feed).Some?
    ensures IndexSound(FoldAll(NewView(key), feed).value)
    decreases |feed|
  {
    if feed != [] {
      var init, last := feed[..|feed| - 1], feed[|feed| - 1];
      IndexAlwaysSound(key, init);
      IndexStep(FoldAll(NewView(key), init).value, last);
    }
  }

  /** A row with a second column, and that column renamed to the key's name. */
  const ONTO_KEY := [
    Insert(map["id" := Number("1"), "x" := Number("7")]),
    RenameColumn([ColumnSpec("id", "INTEGER")], "x", "id")]

  /** The row is then filed under a key value it no longer has. */
  lemma RenameOntoKeyBreaksIndex()
    ensures var v := FoldAll(NewView("id"), ONTO_KEY);
            v.Some? && v.value.rows == map["1" := map["id" := Number("7")]] && !IndexSound(v.value)
  {
    var row: Row := map["id" := Number("1"), "x" := Number("7")];
    var held := View("id", [], map["1" := row]);
    assert ONTO_KEY[..1] == [Insert(row)] && ONTO_KEY[..1][..0] == [];
    assert FoldAll(NewView("id"), ONTO_KEY[..1]) == Some(held);
    assert MoveIn(row, "x", "id") == map["id" := Number("7")];
    assert MoveAll(held.rows, "x", "id") == map["1" := map["id" := Number("7")]];
    var v := FoldAll(NewView("id"), ONTO_KEY).value;
    assert "1" in v.rows && Print(v.rows["1"]["id"]) == "7" != "1";
  }

  // ---------------------------------------------------------------------------------------------
  // Rename is natural.

  function Swap(name: string, a: string, b: string): string {
    if name == a then b else name
  }

  function SwapColumns(columns: seq<ColumnSpec>, a: string, b: string): (r: seq<ColumnSpec>)
    ensures |r| == |columns|
  {
    seq(|columns|, i requires 0 <= i < |columns| => columns[i].(name := Swap(columns[i].name, a, b)))
  }

  /** The same event told in the new name. */
  function SwapChange(c: Change, a: string, b: string): Change {
    match c
    case Read(after) => Read(MoveIn(after, a, b))
    case Insert(after) => Insert(MoveIn(after, a, b))
    case Update(before, after) => Update(MoveIn(before, a, b), MoveIn(after, a, b))
    case Delete(before) => Delete(MoveIn(before, a, b))
    case CreateTable(columns) => CreateTable(SwapColumns(columns, a, b))
    case DropTable => DropTable
    case AddColumn(columns, column) => AddColumn(SwapColumns(columns, a, b), Swap(column, a, b))
    case RenameColumn(columns, from, to) =>
      RenameColumn(SwapColumns(columns, a, b), Swap(from, a, b), Swap(to, a, b))
    case AlterColumnType(columns, column, fromType, toType) =>
      AlterColumnType(SwapColumns(columns, a, b), Swap(column, a, b), fromType, toType)
  }

  function SwapFeed(feed: seq<Change>, a: string, b: string): (r: seq<Change>)
    ensures |r| == |feed|
  {
    seq(|feed|, i requires 0 <= i < |feed| => SwapChange(feed[i], a, b))
  }

  function SwapView(v: View, a: string, b: string): View {
    View(Swap(v.key, a, b),
         seq(|v.columns|, i requires 0 <= i < |v.columns| => Swap(v.columns[i], a, b)),
         MoveAll(v.rows, a, b))
  }

  /** The name occurs nowhere in what the event says. */
  ghost predicate FreshIn(name: string, c: Change) {
    match c
    case Read(after) => name !in after
    case Insert(after) => name !in after
    case Update(before, after) => name !in before && name !in after
    case Delete(before) => name !in before
    case CreateTable(columns) => name !in Names(columns)
    case DropTable => true
    case AddColumn(columns, column) => name !in Names(columns) && column != name
    case RenameColumn(columns, from, to) => name !in Names(columns) && from != name && to != name
    case AlterColumnType(columns, column, _, _) => name !in Names(columns) && column != name
  }

  ghost predicate FreshInView(name: string, v: View) {
    v.key != name && name !in v.columns && forall k :: k in v.rows ==> name !in v.rows[k]
  }

  lemma SwapNames(columns: seq<ColumnSpec>, a: string, b: string)
    ensures Names(SwapColumns(columns, a, b)) ==
            seq(|columns|, i requires 0 <= i < |columns| => Swap(Names(columns)[i], a, b))
  {
  }

  /** Moving a value is the same in either vocabulary. */
  lemma SwapMove(row: Row, from: string, to: string, a: string, b: string)
    requires b !in row && from != b && to != b && a != b
    ensures MoveIn(MoveIn(row, from, to), a, b) == MoveIn(MoveIn(row, a, b), Swap(from, a, b), Swap(to, a, b))
    ensures b !in MoveIn(row, from, to)
  {
  }

  lemma SwapEncode(row: Row, column: string, a: string, b: string)
    requires b !in row && column != b && a != b
    ensures MoveIn(EncodeIn(row, {column}), a, b) == EncodeIn(MoveIn(row, a, b), {Swap(column, a, b)})
    ensures b !in EncodeIn(row, {column})
  {
  }

  lemma SwapKeyOf(v: View, row: Row, a: string, b: string)
    requires FreshInView(b, v) && b !in row && a != b
    ensures v.key in row <==> Swap(v.key, a, b) in MoveIn(row, a, b)
    ensures v.key in row ==> MoveIn(row, a, b)[Swap(v.key, a, b)] == row[v.key]
  {
  }

  /** The event told in the new name does to the table told in the new name what it did before. */
  ghost predicate Commutes(v: View, c: Change, a: string, b: string) {
    var r, q := Fold(v, c), Fold(SwapView(v, a, b), SwapChange(c, a, b));
    && (r.Some? <==> q.Some?)
    && (r.Some? ==> q.value == SwapView(r.value, a, b) && FreshInView(b, r.value))
  }

  lemma RenameStepRow(v: View, c: Change, a: string, b: string)
    requires a != b && FreshInView(b, v) && FreshIn(b, c) && c.IsRow()
    ensures Commutes(v, c, a, b)
  {
    hide MoveIn;
    var row := c.Image();
    SwapKeyOf(v, row, a, b);
    assert SwapChange(c, a, b).Image() == MoveIn(row, a, b);
    if v.key in row {
      var r, q := Fold(v, c).value, Fold(SwapView(v, a, b), SwapChange(c, a, b)).value;
      assert q.rows == MoveAll(r.rows, a, b);
      assert forall k :: k in r.rows ==> k in v.rows || r.rows[k] == row;
    }
  }

  lemma RenameStepMove(v: View, c: Change, a: string, b: string)
    requires a != b && a != "" && b != "" && FreshInView(b, v) && FreshIn(b, c) && c.RenameColumn?
    ensures Commutes(v, c, a, b)
  {
    SwapNames(c.columns, a, b);
    SwapMoveAll(v.rows, c.from, c.to, a, b);
    hide MoveAll, MoveIn;
  }

  lemma SwapMoveAll(rows: map<string, Row>, from: string, to: string, a: string, b: string)
    requires (forall k :: k in rows ==> b !in rows[k]) && from != b && to != b && a != b
    ensures MoveAll(MoveAll(rows, from, to), a, b) == MoveAll(MoveAll(rows, a, b), Swap(from, a, b), Swap(to, a, b))
    ensures forall k :: k in MoveAll(rows, from, to) ==> b !in MoveAll(rows, from, to)[k]
  {
    hide MoveIn;
    forall k | k in rows
      ensures MoveIn(MoveIn(rows[k], from, to), a, b) == MoveIn(MoveIn(rows[k], a, b), Swap(from, a, b), Swap(to, a, b))
      ensures b !in MoveIn(rows[k], from, to)
    {
      SwapMove(rows[k], from, to, a, b);
    }
  }

  lemma RenameStepEncode(v: View, c: Change, a: string, b: string)
    requires a != b && a != "" && b != "" && FreshInView(b, v) && FreshIn(b, c) && c.AlterColumnType?
    ensures Commutes(v, c, a, b)
  {
    hide MoveIn, EncodeIn;
    SwapNames(c.columns, a, b);
    forall k | k in v.rows
      ensures MoveIn(EncodeIn(v.rows[k], {c.column}), a, b) == EncodeIn(MoveIn(v.rows[k], a, b), {Swap(c.column, a, b)})
      ensures b !in EncodeIn(v.rows[k], {c.column})
    {
      SwapEncode(v.rows[k], c.column, a, b);
    }
  }

  lemma RenameStepShape(v: View, c: Change, a: string, b: string)
    requires a != b && FreshInView(b, v) && FreshIn(b, c) && (c.CreateTable? || c.AddColumn? || c.DropTable?)
    ensures Commutes(v, c, a, b)
  {
    hide MoveIn;
    if !c.DropTable? {
      SwapNames(c.columns, a, b);
    }
  }

  lemma RenameStep(v: View, c: Change, a: string, b: string)
    requires a != b && a != "" && b != "" && FreshInView(b, v) && FreshIn(b, c)
    ensures Commutes(v, c, a, b)
  {
    hide Commutes, FreshInView, FreshIn;
    if c.IsRow() {
      RenameStepRow(v, c, a, b);
    } else if c.RenameColumn? {
      RenameStepMove(v, c, a, b);
    } else if c.AlterColumnType? {
      RenameStepEncode(v, c, a, b);
    } else {
      RenameStepShape(v, c, a, b);
    }
  }

  lemma {:induction false} FoldSwapped(v: View, feed: seq<Change>, a: string, b: string)
    requires a != b && a != "" && b != "" && FreshInView(b, v)
    requires forall c :: c in feed ==> FreshIn(b, c)
    ensures FoldAll(v, feed).Some? <==> FoldAll(SwapView(v, a, b), SwapFeed(feed, a, b)).Some?
    ensures FoldAll(v, feed).Some? ==>
      && FoldAll(SwapView(v, a, b), SwapFeed(feed, a, b)).value == SwapView(FoldAll(v, feed).value, a, b)
      && FreshInView(b, FoldAll(v, feed).value)
    decreases |feed|
  {
    hide Fold, SwapView, SwapChange, FreshInView, FreshIn;
    if feed != [] {
      var init, last := feed[..|feed| - 1], feed[|feed| - 1];
      FoldSwapped(v, init, a, b);
      assert SwapFeed(feed, a, b)[..|feed| - 1] == SwapFeed(init, a, b);
      if FoldAll(v, init).Some? {
        RenameStep(FoldAll(v, init).value, last, a, b);
      }
    }
  }

  /**
   Rename is natural: folding any feed and then renaming a column to a name never used is folding the
   feed told in the new name from the start, also when the column renamed is the key.
   */
  lemma RenameIsNatural(key: string, feed: seq<Change>, declared: seq<ColumnSpec>, a: string, b: string)
    requires a != b && a != "" && b != "" && key != b
    requires forall c :: c in feed ==> FreshIn(b, c)
    requires FoldAll(NewView(key), feed).Some?
    requires var v := FoldAll(NewView(key), feed).value;
             Names(declared) == seq(|v.columns|, i requires 0 <= i < |v.columns| => Swap(v.columns[i], a, b))
    ensures FoldAll(NewView(Swap(key, a, b)), SwapFeed(feed, a, b)) ==
            Fold(FoldAll(NewView(key), feed).value, RenameColumn(declared, a, b))
  {
    hide FoldAll, SwapFeed, MoveIn, FreshIn;
    FoldSwapped(NewView(key), feed, a, b);
    assert SwapView(NewView(key), a, b) == NewView(Swap(key, a, b));
  }

  // ---------------------------------------------------------------------------------------------
  // Retype is natural.

  /** The names that `columns` had before the event: a rename is followed backwards. */
  function NamesBefore(columns: set<string>, c: Change): set<string> {
    if c.RenameColumn? && c.from != "" && c.to != "" then
      if c.to in columns then columns + {c.from} else columns - {c.from}
    else columns
  }

  /** The same event with the named columns already in their string encoding. */
  function EncodeChange(c: Change, columns: set<string>): Change {
    match c
    case Read(after) => Read(EncodeIn(after, columns))
    case Insert(after) => Insert(EncodeIn(after, columns))
    case Update(before, after) => Update(EncodeIn(before, columns), EncodeIn(after, columns))
    case Delete(before) => Delete(EncodeIn(before, columns))
    case _ => c
  }

  /** The feed with a column re-encoded in every image, under whatever name it had at the time. */
  function EncodeFeed(feed: seq<Change>, columns: set<string>): (r: seq<Change>)
    ensures |r| == |feed|
  {
    if feed == [] then []
    else
      var init, last := feed[..|feed| - 1], feed[|feed| - 1];
      EncodeFeed(init, NamesBefore(columns, last)) + [EncodeChange(last, columns)]
  }

  lemma EncodeMove(row: Row, from: string, to: string, columns: set<string>)
    ensures var before := if to in columns then columns + {from} else columns - {from};
            EncodeIn(MoveIn(row, from, to), columns) == MoveIn(EncodeIn(row, before), from, to)
  {
  }

  lemma EncodeTwice(row: Row, a: set<string>, b: set<string>)
    ensures EncodeIn(EncodeIn(row, a), b) == EncodeIn(EncodeIn(row, b), a) == EncodeIn(row, a + b)
  {
  }

  /** The event on re-encoded rows does what re-encoding its result does. */
  ghost predicate EncodesThrough(v: View, c: Change, columns: set<string>) {
    var encoded := v.(rows := EncodeAll(v.rows, NamesBefore(columns, c)));
    var r, q := Fold(v, c), Fold(encoded, EncodeChange(c, columns));
    && (r.Some? <==> q.Some?)
    && (r.Some? ==> q.value == r.value.(rows := EncodeAll(r.value.rows, columns)))
  }

  lemma RetypeStepRow(v: View, c: Change, columns: set<string>)
    requires c.IsRow()
    ensures EncodesThrough(v, c, columns)
  {
    hide EncodeIn;
    ImageStep(v, c.Image(), columns);
    assert EncodeChange(c, columns).Image() == EncodeIn(c.Image(), columns);
  }

  lemma RetypeStepMove(v: View, c: Change, columns: set<string>)
    requires c.RenameColumn?
    ensures EncodesThrough(v, c, columns)
  {
    hide EncodeIn, MoveIn;
    var from, to := c.from, c.to;
    forall k | k in v.rows
      ensures var before := if to in columns then columns + {from} else columns - {from};
              EncodeIn(MoveIn(v.rows[k], from, to), columns) == MoveIn(EncodeIn(v.rows[k], before), from, to)
    {
      EncodeMove(v.rows[k], from, to, columns);
    }
  }

  lemma RetypeStep(v: View, c: Change, columns: set<string>)
    ensures EncodesThrough(v, c, columns)
  {
    if c.IsRow() {
      RetypeStepRow(v, c, columns);
    } else if c.RenameColumn? {
      RetypeStepMove(v, c, columns);
    } else {
      hide EncodeIn;
      if c.AlterColumnType? {
        forall k | k in v.rows
          ensures EncodeIn(EncodeIn(v.rows[k], columns), {c.column}) ==
                  EncodeIn(EncodeIn(v.rows[k], {c.column}), columns)
        {
          EncodeTwice(v.rows[k], columns, {c.column});
        }
      }
    }
  }

  lemma ImageStep(v: View, row: Row, columns: set<string>)
    ensures EncodeIn(row, columns).Keys == row.Keys
    ensures v.key in row ==> Print(EncodeIn(row, columns)[v.key]) == Print(row[v.key])
  {
  }

  /** Folding a re-encoded feed is re-encoding the fold, for any set of columns. */
  lemma {:induction false} FoldEncoded(v: View, feed: seq<Change>, columns: set<string>)
    requires v.rows == map[]
    ensures FoldAll(v, feed).Some? <==> FoldAll(v, EncodeFeed(feed, columns)).Some?
    ensures FoldAll(v, feed).Some? ==>
      var w := FoldAll(v, feed).value;
      FoldAll(v, EncodeFeed(feed, columns)).value == w.(rows := EncodeAll(w.rows, columns))
    decreases |feed|
  {
    hide Fold, EncodeChange, NamesBefore, EncodeIn;
    if feed != [] {
      var init, last := feed[..|feed| - 1], feed[|feed| - 1];
      FoldEncoded(v, init, NamesBefore(columns, last));
      assert EncodeFeed(feed, columns)[..|feed| - 1] == EncodeFeed(init, NamesBefore(columns, last));
      if FoldAll(v, init).Some? {
        RetypeStep(FoldAll(v, init).value, last, columns);
      }
    }
  }

  /**
   Retype is natural: folding any feed and then retyping a column to a string-encoded type is folding
   the feed with that column re-encoded in every image, renames of it along the way included.
   */
  lemma RetypeIsNatural(
    key: string, feed: seq<Change>, declared: seq<ColumnSpec>, column: string, fromType: string, toType: string)
    requires column != "" && StringEncoded(toType)
    requires FoldAll(NewView(key), feed).Some?
    requires Names(declared) == FoldAll(NewView(key), feed).value.columns
    ensures FoldAll(NewView(key), EncodeFeed(feed, {column})) ==
            Fold(FoldAll(NewView(key), feed).value, AlterColumnType(declared, column, fromType, toType))
  {
    hide FoldAll, EncodeFeed, EncodeIn;
    FoldEncoded(NewView(key), feed, {column});
  }
}
