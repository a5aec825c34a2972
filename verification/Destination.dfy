/**
 One destination table as the SQL statements of the sinks see it: data columns, a primary key, and
 rows that carry the stamp, tombstone, writer and retraction mark of whatever last wrote them.

 The statements are the ones the sinks and the retraction command issue. The results here are about
 every sequence of them, so they hold across feed runs, crashes, schema changes and retractions in
 any order.
 */
module Destination {
  import opened Feed

  /** The composite position (commit, record) a row was written at. */
  datatype Stamp = Stamp(commit: int, record: int)

  /** The strictly-greater test of the ON CONFLICT clause. */
  predicate Above(a: Stamp, b: Stamp) {
    a.commit > b.commit || (a.commit == b.commit && a.record > b.record)
  }

  datatype DestRow = DestRow(
    cells: Row, stamp: Stamp, deleted: bool, writer: Option<Writer>, retracted: bool)

  datatype Table = Table(columns: seq<ColumnSpec>, key: string, rows: map<Value, DestRow>)

  datatype Mode = Quarantine | Remove

  datatype Statement =
    | Put(key: Value, cells: Row, stamp: Stamp, deleted: bool, writer: Option<Writer>)
    | Retract(version: string, mode: Mode)
    | Add(column: ColumnSpec)
    | Rename(from: string, to: string)
    | Retype(name: string, typ: string)
    | Rebuild(columns: seq<ColumnSpec>, primary: string)
  {
    predicate IsSchema() {
      Add? || Rename? || Retype? || Rebuild?
    }
  }

  /** The `_model_version` predicate of a retraction. NULL, the unattributed slot, never equals anything. */
  predicate WrittenBy(writer: Option<Writer>, version: string) {
    writer.Some? && writer.value.modelVersion == version
  }

  /** A widening cast of one stored value: text keeps the digits of a number. */
  function Cast(typ: string, v: Value): Value {
    if typ != "VARCHAR" then v
    else match v
      case Number(digits) => Text(digits)
      case Bool(b) => Text(if b then "true" else "false")
      case _ => v
  }

  function RenameCell(cells: Row, from: string, to: string): Row {
    if from in cells then (cells - {from})[to := cells[from]] else cells
  }

  /** What a statement does to the cells of a row it does not write. */
  function Carry(cells: Row, s: Statement): Row {
    match s
    case Add(c) => if c.name in cells then cells else cells[c.name := Null]
    case Rename(from, to) => RenameCell(cells, from, to)
    case Retype(name, typ) => if name in cells then cells[name := Cast(typ, cells[name])] else cells
    case Rebuild(columns, _) => map c | c in Names(columns) && c in cells :: cells[c]
    case _ => cells
  }

  function CarryAll(cells: Row, ss: seq<Statement>): Row {
    if ss == [] then cells else Carry(CarryAll(cells, ss[..|ss| - 1]), ss[|ss| - 1])
  }

  function RenameSpec(c: ColumnSpec, from: string, to: string): ColumnSpec {
    if c.name == from then c.(name := to) else c
  }

  function RetypeSpec(c: ColumnSpec, name: string, typ: string): ColumnSpec {
    if c.name == name then c.(typ := typ) else c
  }

  function ColumnsAfter(columns: seq<ColumnSpec>, s: Statement): seq<ColumnSpec> {
    match s
    case Add(c) => columns + [c]
    case Rename(from, to) =>
      seq(|columns|, i requires 0 <= i < |columns| => RenameSpec(columns[i], from, to))
    case Retype(name, typ) =>
      seq(|columns|, i requires 0 <= i < |columns| => RetypeSpec(columns[i], name, typ))
    case Rebuild(rebuilt, _) => rebuilt
    case _ => columns
  }

  /** Whether the guarded upsert writes: the key is absent, or held at a strictly smaller stamp. */
  predicate Accepts(t: Table, s: Statement)
    requires s.Put?
  {
    s.key !in t.rows || Above(s.stamp, t.rows[s.key].stamp)
  }

  function Marked(r: DestRow, version: string, mode: Mode): DestRow {
    if WrittenBy(r.writer, version)
    then r.(retracted := true, deleted := r.deleted || mode == Remove)
    else r
  }

  /** What a statement other than a write does to one row. */
  function RowAfter(r: DestRow, s: Statement): DestRow {
    if s.Retract? then Marked(r, s.version, s.mode) else r.(cells := Carry(r.cells, s))
  }

  /** One statement against the table. */
  function Exec(t: Table, s: Statement): Table {
    if s.Put? then
      if Accepts(t, s)
      then t.(rows := t.rows[s.key := DestRow(s.cells, s.stamp, s.deleted, s.writer, false)])
      else t
    else
      Table(
        ColumnsAfter(t.columns, s),
        if s.Rebuild? then s.primary else if s.Rename? && t.key == s.from then s.to else t.key,
        map k | k in t.rows :: RowAfter(t.rows[k], s))
  }

  function ExecAll(t: Table, ss: seq<Statement>): Table {
    if ss == [] then t else Exec(ExecAll(t, ss[..|ss| - 1]), ss[|ss| - 1])
  }

  // ---------------------------------------------------------------------------------------------
  // The exact history of a row.

  ghost predicate PutsKey(ss: seq<Statement>, i: int, k: Value) {
    0 <= i < |ss| && ss[i].Put? && ss[i].key == k
  }

  /**
   The write that must be standing for key `k`: no write for `k` is above it, and every earlier one
   is strictly below it, so among equal stamps the first arrival stands.
   */
  ghost predicate Winner(ss: seq<Statement>, k: Value, w: int) {
    && PutsKey(ss, w, k)
    && (forall j :: PutsKey(ss, j, k) ==> !Above(ss[j].stamp, ss[w].stamp))
    && (forall j :: j < w && PutsKey(ss, j, k) ==> Above(ss[w].stamp, ss[j].stamp))
  }

  /** A retraction of the writer of statement `w`, run after it. */
  ghost predicate RetractedAt(ss: seq<Statement>, w: int, j: int) {
    0 <= w < j < |ss| && ss[w].Put? && ss[j].Retract? && WrittenBy(ss[w].writer, ss[j].version)
  }

  ghost predicate StandsAs(r: DestRow, ss: seq<Statement>, w: int)
    requires 0 <= w < |ss| && ss[w].Put?
  {
    && r.stamp == ss[w].stamp
    && r.writer == ss[w].writer
    && r.cells == CarryAll(ss[w].cells, ss[w + 1..])
    && (r.retracted <==> exists j :: RetractedAt(ss, w, j))
    && (r.deleted <==> ss[w].deleted || exists j :: RetractedAt(ss, w, j) && ss[j].mode == Remove)
  }

  lemma CarryAllSnoc(cells: Row, ss: seq<Statement>, w: nat, last: Statement)
    requires w < |ss|
    ensures CarryAll(cells, (ss + [last])[w + 1..]) == Carry(CarryAll(cells, ss[w + 1..]), last)
  {
    var tail := (ss + [last])[w + 1..];
    assert tail[..|tail| - 1] == ss[w + 1..];
  }

  /**
   The complete state of every key after any statements from an empty table: the row that stands is
   the winner's, its cells carried through the later schema changes, marked retracted exactly when
   its writer's version was retracted after it was installed.
   */
  lemma {:induction false} History(t: Table, ss: seq<Statement>, k: Value, w: int)
    requires t.rows == map[]
    requires Winner(ss, k, w)
    ensures k in ExecAll(t, ss).rows
    ensures StandsAs(ExecAll(t, ss).rows[k], ss, w)
    decreases |ss|
  {
    var init, last := ss[..|ss| - 1], ss[|ss| - 1];
    assert ss == init + [last];
    if w == |init| {
      HistoryInstall(t, ss, k, w);
    } else {
      assert Winner(init, k, w) by {
        assert forall j :: PutsKey(init, j, k) ==> PutsKey(ss, j, k);
      }
      History(t, init, k, w);
      CarryAllSnoc(ss[w].cells, init, w, last);
      HistoryKeep(ExecAll(t, init), init, last, k, w);
    }
  }

  /** The last statement is the winner, so it is accepted. */
  lemma HistoryInstall(t: Table, ss: seq<Statement>, k: Value, w: int)
    requires t.rows == map[]
    requires |ss| > 0 && w == |ss| - 1 && Winner(ss, k, w)
    ensures k in ExecAll(t, ss).rows
    ensures StandsAs(ExecAll(t, ss).rows[k], ss, w)
    decreases |ss|, 1
  {
    var init := ss[..w];
    assert ss[w + 1..] == [];
    if k in ExecAll(t, init).rows {
      var i := KeyComesFromPut(t, init, k);
      assert PutsKey(ss, i, k);
    }
  }

  /** A later statement that does not displace the winner changes the row only as described. */
  lemma HistoryKeep(t: Table, init: seq<Statement>, last: Statement, k: Value, w: int)
    requires 0 <= w < |init| && init[w].Put? && init[w].key == k
    requires k in t.rows && StandsAs(t.rows[k], init, w)
    requires CarryAll(init[w].cells, (init + [last])[w + 1..]) == Carry(CarryAll(init[w].cells, init[w + 1..]), last)
    requires last.Put? && last.key == k ==> !Above(last.stamp, init[w].stamp)
    ensures k in Exec(t, last).rows
    ensures StandsAs(Exec(t, last).rows[k], init + [last], w)
  {
    var ss := init + [last];
    var r := Exec(t, last).rows[k];
    assert forall j :: RetractedAt(init, w, j) ==> RetractedAt(ss, w, j) && ss[j] == init[j];
    assert forall j :: RetractedAt(ss, w, j) && j < |init| ==> RetractedAt(init, w, j) && ss[j] == init[j];
    if last.Retract? && WrittenBy(init[w].writer, last.version) {
      assert RetractedAt(ss, w, |init|);
    }
  }

  /** A held row was written by some statement for its key, at that statement's stamp. */
  lemma {:induction false} KeyComesFromPut(t: Table, ss: seq<Statement>, k: Value) returns (i: int)
    requires t.rows == map[]
    requires k in ExecAll(t, ss).rows
    ensures PutsKey(ss, i, k) && ExecAll(t, ss).rows[k].stamp == ss[i].stamp
    decreases |ss|
  {
    var init, last := ss[..|ss| - 1], ss[|ss| - 1];
    if last.Put? && last.key == k && Accepts(ExecAll(t, init), last) {
      i := |init|;
    } else {
      i := KeyComesFromPut(t, init, k);
    }
  }

  /** Every key that was ever written has a winner, so `History` covers every row. */
  lemma {:induction false} WinnerExists(ss: seq<Statement>, k: Value, i: int) returns (w: int)
    requires PutsKey(ss, i, k)
    ensures Winner(ss, k, w)
    decreases |ss|
  {
    var init, last := ss[..|ss| - 1], ss[|ss| - 1];
    if exists j :: PutsKey(init, j, k) {
      var j :| PutsKey(init, j, k);
      w := WinnerExists(init, k, j);
      if last.Put? && last.key == k && Above(last.stamp, ss[w].stamp) {
        assert forall j :: PutsKey(init, j, k) ==> !Above(init[j].stamp, init[w].stamp);
        w := |init|;
      }
      assert forall j :: PutsKey(ss, j, k) ==> j == |init| || PutsKey(init, j, k);
    } else {
      assert forall j :: PutsKey(ss, j, k) ==> j == |init| || PutsKey(init, j, k);
      w := i;
    }
  }

  /** A row is held exactly for the keys some statement wrote. */
  lemma RowIffWritten(t: Table, ss: seq<Statement>, k: Value)
    requires t.rows == map[]
    ensures k in ExecAll(t, ss).rows <==> exists i :: PutsKey(ss, i, k)
  {
    if k in ExecAll(t, ss).rows {
      var i := KeyComesFromPut(t, ss, k);
    }
    if i :| PutsKey(ss, i, k) {
      var w := WinnerExists(ss, k, i);
      History(t, ss, k, w);
    }
  }

  // ---------------------------------------------------------------------------------------------
  // Last writer wins, whatever the order and the duplication.

  ghost predicate OnlyPuts(ss: seq<Statement>) {
    forall s :: s in ss ==> s.Put?
  }

  /** Two writes to one key at one stamp are the same write. */
  ghost predicate StampsIdentify(ss: seq<Statement>) {
    forall s, s' :: s in ss && s' in ss && s.Put? && s'.Put? && s.key == s'.key && s.stamp == s'.stamp ==> s == s'
  }

  lemma {:induction false} PutsCarryNothing(cells: Row, ss: seq<Statement>)
    requires OnlyPuts(ss)
    ensures CarryAll(cells, ss) == cells
    decreases |ss|
  {
    if ss != [] {
      PutsCarryNothing(cells, ss[..|ss| - 1]);
    }
  }

  lemma FirstOccurrence(ss: seq<Statement>, s: Statement) returns (i: int)
    requires s in ss
    ensures 0 <= i < |ss| && ss[i] == s && s !in ss[..i]
  {
    i := 0;
    while ss[i] != s
      decreases |ss| - i
      invariant 0 <= i < |ss|
      invariant s !in ss[..i] && s in ss[i..]
    {
      i := i + 1;
    }
  }

  lemma SameRowFor(t: Table, a: seq<Statement>, b: seq<Statement>, k: Value)
    requires t.rows == map[]
    requires OnlyPuts(a) && OnlyPuts(b) && StampsIdentify(a)
    requires forall s :: s in a <==> s in b
    requires k in ExecAll(t, a).rows
    ensures k in ExecAll(t, b).rows && ExecAll(t, b).rows[k] == ExecAll(t, a).rows[k]
  {
    var i := KeyComesFromPut(t, a, k);
    var w := WinnerExists(a, k, i);
    History(t, a, k, w);
    PutsCarryNothing(a[w].cells, a[w + 1..]);
    var v := FirstOccurrence(b, a[w]);
    forall j | PutsKey(b, j, k)
      ensures !Above(b[j].stamp, b[v].stamp)
      ensures j < v ==> Above(b[v].stamp, b[j].stamp)
    {
      assert b[j] in a;
      var i' :| 0 <= i' < |a| && a[i'] == b[j];
      assert PutsKey(a, i', k);
      if j < v {
        assert b[j] in b[..v];
        assert b[j] != a[w];
      }
    }
    History(t, b, k, v);
    PutsCarryNothing(b[v].cells, b[v + 1..]);
    assert forall j :: 0 <= j < |a| ==> a[j] in a;
    assert forall j :: 0 <= j < |b| ==> b[j] in b;
  }

  /** Any reordering and any duplication of the same writes leaves the same rows. */
  lemma LastWriterWins(t: Table, a: seq<Statement>, b: seq<Statement>)
    requires t.rows == map[]
    requires OnlyPuts(a) && OnlyPuts(b) && StampsIdentify(a)
    requires forall s :: s in a <==> s in b
    ensures ExecAll(t, a).rows == ExecAll(t, b).rows
  {
    forall k | k in ExecAll(t, a).rows
      ensures k in ExecAll(t, b).rows && ExecAll(t, b).rows[k] == ExecAll(t, a).rows[k]
    {
      SameRowFor(t, a, b, k);
    }
    forall k | k in ExecAll(t, b).rows
      ensures k in ExecAll(t, a).rows
    {
      SameRowFor(t, b, a, k);
    }
  }

  // ---------------------------------------------------------------------------------------------
  // Schema changes and the ordering guard.

  /** The bookkeeping half of a row: everything the guard and a retraction look at. */
  function Meta(r: DestRow): (Stamp, bool, Option<Writer>, bool) {
    (r.stamp, r.deleted, r.writer, r.retracted)
  }

  ghost predicate SameMeta(t: Table, u: Table) {
    && t.rows.Keys == u.rows.Keys
    && forall k :: k in t.rows.Keys ==> Meta(t.rows[k]) == Meta(u.rows[k])
  }

  /** The same statements with every schema change left out. */
  function DataOnly(ss: seq<Statement>): seq<Statement> {
    if ss == [] then []
    else
      var init, last := DataOnly(ss[..|ss| - 1]), ss[|ss| - 1];
      if last.IsSchema() then init else init + [last]
  }

  lemma MetaPut(t: Table, u: Table, s: Statement)
    requires SameMeta(t, u) && s.Put?
    ensures Accepts(t, s) <==> Accepts(u, s)
    ensures SameMeta(Exec(t, s), Exec(u, s))
  {
  }

  lemma MetaRow(r: DestRow, q: DestRow, s: Statement)
    requires Meta(r) == Meta(q)
    ensures Meta(RowAfter(r, s)) == Meta(RowAfter(q, s))
    ensures s.IsSchema() ==> Meta(RowAfter(r, s)) == Meta(q)
  {
  }

  lemma MetaStep(t: Table, u: Table, s: Statement)
    requires SameMeta(t, u) && !s.Put?
    ensures SameMeta(Exec(t, s), Exec(u, s))
    ensures s.IsSchema() ==> SameMeta(Exec(t, s), u)
  {
    hide RowAfter, ColumnsAfter;
    forall k | k in t.rows.Keys
      ensures Meta(RowAfter(t.rows[k], s)) == Meta(RowAfter(u.rows[k], s))
      ensures s.IsSchema() ==> Meta(RowAfter(t.rows[k], s)) == Meta(u.rows[k])
    {
      MetaRow(t.rows[k], u.rows[k], s);
    }
  }

  /**
   Schema changes never disturb ordering: leaving all of them out changes no stamp, tombstone, writer
   or mark, and no later accept-or-reject decision.
   */
  lemma {:induction false} SchemaChangesKeepOrdering(t: Table, ss: seq<Statement>, next: Statement)
    ensures SameMeta(ExecAll(t, ss), ExecAll(t, DataOnly(ss)))
    ensures next.Put? ==> (Accepts(ExecAll(t, ss), next) <==> Accepts(ExecAll(t, DataOnly(ss)), next))
    decreases |ss|
  {
    if ss != [] {
      var init, last := ss[..|ss| - 1], ss[|ss| - 1];
      SchemaChangesKeepOrdering(t, init, next);
      if last.Put? {
        MetaPut(ExecAll(t, init), ExecAll(t, DataOnly(init)), last);
      } else {
        MetaStep(ExecAll(t, init), ExecAll(t, DataOnly(init)), last);
      }
      if !last.IsSchema() {
        assert DataOnly(ss)[..|DataOnly(ss)| - 1] == DataOnly(init);
      }
    }
    if next.Put? {
      MetaPut(ExecAll(t, ss), ExecAll(t, DataOnly(ss)), next);
    }
  }

  // ---------------------------------------------------------------------------------------------
  // No resurrection, and what a retraction commutes with.

  /** Stamps never decrease, and a row never disappears. */
  lemma {:induction false} StampsNeverDecrease(t: Table, ss: seq<Statement>, k: Value)
    requires k in t.rows
    ensures k in ExecAll(t, ss).rows && !Above(t.rows[k].stamp, ExecAll(t, ss).rows[k].stamp)
    decreases |ss|
  {
    if ss != [] {
      StampsNeverDecrease(t, ss[..|ss| - 1], k);
    }
  }

  /** A tombstone stays until a write for the same key at a strictly greater stamp. */
  lemma {:induction false} NoResurrection(t: Table, ss: seq<Statement>, k: Value)
    requires k in t.rows && t.rows[k].deleted
    requires forall i :: PutsKey(ss, i, k) ==> !Above(ss[i].stamp, t.rows[k].stamp)
    ensures k in ExecAll(t, ss).rows
    ensures ExecAll(t, ss).rows[k].deleted && ExecAll(t, ss).rows[k].stamp == t.rows[k].stamp
    decreases |ss|
  {
    if ss != [] {
      var init := ss[..|ss| - 1];
      assert forall i :: PutsKey(init, i, k) ==> PutsKey(ss, i, k);
      NoResurrection(t, init, k);
      assert ss[|ss| - 1].Put? && ss[|ss| - 1].key == k ==> PutsKey(ss, |ss| - 1, k);
    }
  }

  /** Retracting one version commutes with a write by any other, and with an unattributed one. */
  lemma RetractionCommutes(t: Table, put: Statement, version: string, mode: Mode)
    requires put.Put? && !WrittenBy(put.writer, version)
    ensures Exec(Exec(t, put), Retract(version, mode)) == Exec(Exec(t, Retract(version, mode)), put)
  {
  }
}
