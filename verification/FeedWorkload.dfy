/**
 Logs of statements that run one after another, as the streaming server's own writer makes them: the
 records of a statement, its commit, and only then the next statement.
 */
module FeedWorkload {
  import opened FeedStream
  import opened FeedServer

  /** Where the statement that ends at `ends[k]` may begin: past the end of the one before. */
  function From(ends: seq<nat>, k: nat): nat
    requires k <= |ends|
  {
    if k == 0 then 0 else ends[k - 1] + 1
  }

  /** A declaration of the table, or the commit of a transaction that changed it. */
  ghost predicate Releases(log: Log, table: string, ends: seq<nat>, k: nat)
    requires k < |ends|
  {
    var c := ends[k];
    && c < |log|
    && ((log[c].Ddl? && log[c].table == table)
        || exists i: nat :: From(ends, k) <= i < c && log[i].Change? && log[c] == Commit(log[i].txn))
  }

  /** The record at `i` is a change that statement `k` commits. */
  predicate Belongs(log: Log, table: string, ends: seq<nat>, k: nat, i: nat)
    requires k < |ends|
  {
    && From(ends, k) <= i < ends[k] < |log|
    && log[i].Change? && log[i].table == table && log[ends[k]] == Commit(log[i].txn)
  }

  /** Serial statements over one table that end at `ends`; any other record is quiet. */
  ghost predicate Serial(log: Log, table: string, ends: seq<nat>) {
    && (forall j: nat, k: nat | j < k < |ends| :: ends[j] < ends[k])
    && (forall k: nat | k < |ends| :: Releases(log, table, ends, k))
    && (forall i: nat | i < |log| && i !in ends ::
          log[i] == Quiet || exists k: nat :: k < |ends| && Belongs(log, table, ends, k, i))
  }

  /** Less than a window of log between the end of one statement and the next. */
  predicate Spaced(w: Window, ends: seq<nat>) {
    forall k: nat | k < |ends| :: Within(w, From(ends, k), ends[k])
  }

  lemma FromIsMonotone(log: Log, table: string, ends: seq<nat>, a: nat, b: nat)
    requires Serial(log, table, ends) && a <= b <= |ends|
    ensures From(ends, a) <= From(ends, b)
    ensures a < b ==> ends[a] < From(ends, b)
  {
    assert 0 < a < b ==> ends[a - 1] < ends[b - 1];
    assert a < b - 1 ==> ends[a] < ends[b - 1];
  }

  lemma NoEndWithin(log: Log, table: string, ends: seq<nat>, k: nat, i: nat)
    requires Serial(log, table, ends) && k < |ends| && From(ends, k) <= i < ends[k]
    ensures i !in ends
  {
    if j: nat :| j < |ends| && ends[j] == i {
      assert j < k ==> ends[j] <= ends[k - 1];
    }
  }

  /** Nothing is open where a statement has ended. */
  lemma NothingOpenBetween(log: Log, table: string, ends: seq<nat>, k: nat)
    requires Serial(log, table, ends) && k <= |ends|
    ensures From(ends, k) <= |log| && OpenFrom(log, 0, From(ends, k)) == From(ends, k)
  {
    hide OpenFrom;
    var t := From(ends, k);
    assert k > 0 ==> Releases(log, table, ends, k - 1);
    forall i: nat | i < t && log[i].Change?
      ensures Finished(log, i, t)
    {
      EndedBy(log, table, ends, k, i);
    }
    OpenFromIsLeast(log, 0, t, t);
  }

  lemma EndedBy(log: Log, table: string, ends: seq<nat>, k: nat, i: nat)
    requires Serial(log, table, ends) && k <= |ends| && i < From(ends, k) <= |log| && log[i].Change?
    ensures Finished(log, i, From(ends, k))
  {
    assert i !in ends by { ChangeIsNoEnd(log, table, ends, i); }
    var j: nat :| j < |ends| && Belongs(log, table, ends, j, i);
    if k <= j {
      FromIsMonotone(log, table, ends, k, j);
    } else {
      FromIsMonotone(log, table, ends, j, k);
      assert Ends(log, ends[j], log[i].txn);
    }
  }

  lemma ChangeIsNoEnd(log: Log, table: string, ends: seq<nat>, i: nat)
    requires Serial(log, table, ends) && i < |log| && log[i].Change?
    ensures i !in ends
  {
    forall k: nat | k < |ends|
      ensures ends[k] != i
    {
      assert Releases(log, table, ends, k);
    }
  }

  /** A statement's end makes its table's changes deliverable, and no other record does. */
  lemma DeliversIff(log: Log, p: Policy, table: string, ends: seq<nat>, c: nat)
    requires Serial(log, table, ends) && p.snapshot.tables == {} && c < |log|
    ensures Delivers(log, p, c) <==> table !in p.excluded && c in ends
  {
    hide Candidates, Serial;
    CandidatesAre(p, 0, EventsAt(log, 0, c));
    NoCandidates(p, 0);
    EventsOfStatement(log, table, ends, c);
    if EventsAt(log, 0, c) != [] {
      var e := EventsAt(log, 0, c)[0];
      assert e in EventsAt(log, 0, c);
      if table in p.excluded {
        NoneIsCandidate(p, 0, EventsAt(log, 0, c));
      } else {
        assert e in Candidates(p, 0, EventsAt(log, 0, c));
      }
    }
  }

  lemma EventsOfStatement(log: Log, table: string, ends: seq<nat>, c: nat)
    requires Serial(log, table, ends) && c < |log|
    ensures EventsAt(log, 0, c) != [] <==> c in ends
    ensures forall e :: e in EventsAt(log, 0, c) ==> e.table == table
  {
    hide Pending, Serial;
    if k: nat :| k < |ends| && ends[k] == c {
      assert Releases(log, table, ends, k) by { StatementReleases(log, table, ends, k); }
      if log[c].Commit? {
        var i: nat :| From(ends, k) <= i < c && log[i].Change? && log[c] == Commit(log[i].txn);
        PendingHere(log, table, ends, k, i);
      }
    } else {
      assert !log[c].Commit? && !log[c].Ddl? by { OtherRecords(log, table, ends, c); }
    }
  }

  lemma StatementReleases(log: Log, table: string, ends: seq<nat>, k: nat)
    requires Serial(log, table, ends) && k < |ends|
    ensures Releases(log, table, ends, k)
  {
  }

  lemma OtherRecords(log: Log, table: string, ends: seq<nat>, i: nat)
    requires Serial(log, table, ends) && i < |log| && i !in ends
    ensures log[i] == Quiet || (log[i].Change? && log[i].table == table)
  {
  }

  /** What statement `k` has staged when its commit is read. */
  lemma PendingHere(log: Log, table: string, ends: seq<nat>, k: nat, i: nat)
    requires Serial(log, table, ends) && k < |ends| && From(ends, k) <= i < ends[k] < |log|
    requires log[i].Change? && log[ends[k]] == Commit(log[i].txn)
    ensures Pending(log, 0, ends[k], log[i].txn) != []
    ensures AreChanges(log, Pending(log, 0, ends[k], log[i].txn))
    ensures forall m :: m in Pending(log, 0, ends[k], log[i].txn) ==> log[m].table == table
  {
    hide Pending, Serial;
    var c, txn := ends[k], log[i].txn;
    PendingExact(log, 0, c, txn);
    PendingAreChanges(log, 0, c, txn);
    forall j: nat | i < j < c
      ensures !Ends(log, j, txn)
    {
      NoEndWithin(log, table, ends, k, j);
      OtherRecords(log, table, ends, j);
    }
    assert i in Pending(log, 0, c, txn);
    forall m | m in Pending(log, 0, c, txn)
      ensures log[m].table == table
    {
      ChangeIsNoEnd(log, table, ends, m);
      OtherRecords(log, table, ends, m);
    }
  }

  // --- a serial log is served -----------------------------------------------------------------

  lemma MarkIsStatementEnd(log: Log, p: Policy, table: string, ends: seq<nat>, t: nat) returns (k: nat)
    requires Serial(log, table, ends) && p.snapshot.tables == {} && Mark(log, p, t)
    ensures k <= |ends| && t == From(ends, k)
  {
    hide Serial, EventsAt, Candidates;
    if t == 0 {
      k := 0;
    } else {
      DeliversIff(log, p, table, ends, t - 1);
      var j: nat :| j < |ends| && ends[j] == t - 1;
      k := j + 1;
    }
  }

  /** The first statement past another's end comes no later than any that does. */
  lemma NextStatement(log: Log, table: string, ends: seq<nat>, m: nat, j: nat)
    requires Serial(log, table, ends) && m <= |ends| && j < |ends| && From(ends, m) <= ends[j]
    ensures m < |ends| && From(ends, m) <= ends[m] <= ends[j] < |log| && (ends[m] == ends[j] ==> m == j)
  {
    StatementReleases(log, table, ends, j);
    if j < m {
      FromIsMonotone(log, table, ends, j, m);
    }
  }

  lemma SpacedNeverStalls(log: Log, p: Policy, w: Window, table: string, ends: seq<nat>, t: nat, d: nat)
    requires Serial(log, table, ends) && p.snapshot.tables == {} && Spaced(w, ends)
    ensures !Stalls(log, p, w, t, d)
  {
    hide OpenFrom, EventsAt, Candidates, Within;
    if Stalls(log, p, w, t, d) {
      var m := MarkIsStatementEnd(log, p, table, ends, t);
      DeliversIff(log, p, table, ends, d);
      var j: nat :| j < |ends| && ends[j] == d;
      NothingOpenBetween(log, table, ends, m);
      NextStatement(log, table, ends, m, j);
      DeliversIff(log, p, table, ends, ends[m]);
    }
  }

  /** Whatever the publication decides about the table, such a log is served when its statements are close. */
  lemma SpacedIsServed(log: Log, p: Policy, w: Window, table: string, ends: seq<nat>)
    requires Serial(log, table, ends) && p.snapshot.tables == {} && Spaced(w, ends) && Usable(w)
    ensures forall run | IsRun(run, p, w) && ClosesOn(run, log) :: SentAll(run, log, p)
  {
    hide IsRun, Stalls, SentAll, Serial, Within, ClosesOn, Usable;
    CleanCloseIff(log, p, w);
    forall t: nat, d: nat
      ensures !Stalls(log, p, w, t, d)
    {
      SpacedNeverStalls(log, p, w, table, ends, t, d);
    }
  }

  /** Only the table's own changes are deliverable. */
  lemma {:induction false} DeliverableIsOfTable(log: Log, p: Policy, table: string, ends: seq<nat>, n: nat)
    requires Serial(log, table, ends) && n <= |log|
    ensures forall e :: e in Deliverable(log, p, n) ==> e.table == table
    decreases n
  {
    hide EventsAt, Candidates, Serial;
    if n == 0 {
      NoCandidates(p, 0);
    } else {
      DeliverableIsOfTable(log, p, table, ends, n - 1);
      CandidatesConcat(p, 0, Decoded(log, 0, n - 1), EventsAt(log, 0, n - 1));
      CandidatesAre(p, 0, EventsAt(log, 0, n - 1));
      EventsOfStatement(log, table, ends, n - 1);
    }
  }

  lemma UnspacedStalls(log: Log, p: Policy, w: Window, table: string, ends: seq<nat>, k: nat)
    requires Serial(log, table, ends) && p.snapshot.tables == {} && table !in p.excluded + p.refused
    requires k < |ends| && !Within(w, From(ends, k), ends[k])
    ensures Stalls(log, p, w, From(ends, k), ends[k])
  {
    hide OpenFrom, EventsAt, Candidates, Within;
    var t, d := From(ends, k), ends[k];
    StatementReleases(log, table, ends, k);
    DeliverableIsOfTable(log, p, table, ends, d);
    NothingOpenBetween(log, table, ends, k);
    DeliversIff(log, p, table, ends, d);
    if k > 0 {
      DeliversIff(log, p, table, ends, t - 1);
    }
    forall c: nat | t <= c < d
      ensures !Delivers(log, p, c)
    {
      NoEndWithin(log, table, ends, k, c);
      DeliversIff(log, p, table, ends, c);
    }
  }

  /**
   Serial statements over one published table: every clean close has sent every row, whatever the
   interleaving of the two threads, exactly when statements end less than a window apart.
   */
  lemma SerialIsServedIff(log: Log, p: Policy, w: Window, table: string, ends: seq<nat>)
    requires Serial(log, table, ends) && p.snapshot.tables == {} && table !in p.excluded + p.refused && Usable(w)
    ensures (forall run | IsRun(run, p, w) && ClosesOn(run, log) :: SentAll(run, log, p)) <==> Spaced(w, ends)
  {
    hide IsRun, Stalls, SentAll, Serial, Within, ClosesOn, Usable;
    CleanCloseIff(log, p, w);
    if Spaced(w, ends) {
      SpacedIsServed(log, p, w, table, ends);
    } else {
      var k: nat :| k < |ends| && !Within(w, From(ends, k), ends[k]);
      UnspacedStalls(log, p, w, table, ends, k);
    }
  }

  /** One more statement after serial ones: quiet records and changes of one transaction, its commit, quiet records. */
  ghost predicate Statement(s: Log, table: string, c: nat) {
    && c < |s| && s[c].Commit?
    && (forall i: nat | i < |s| && i != c ::
          s[i] == Quiet || (i < c && s[i].Change? && s[i].table == table && s[i].txn == s[c].txn))
    && exists i: nat :: i < c && s[i].Change?
  }

  lemma EndsWithin(log: Log, table: string, ends: seq<nat>)
    requires Serial(log, table, ends)
    ensures From(ends, |ends|) <= |log|
  {
    if ends != [] {
      StatementReleases(log, table, ends, |ends| - 1);
    }
  }

  lemma ReleasesAsLogGrows(log: Log, table: string, ends: seq<nat>, s: Log, next: nat, k: nat)
    requires Serial(log, table, ends) && k < |ends|
    ensures Releases(log + s, table, ends + [next], k)
  {
    StatementReleases(log, table, ends, k);
    var c := ends[k];
    if !log[c].Ddl? {
      var i: nat :| From(ends, k) <= i < c && log[i].Change? && log[c] == Commit(log[i].txn);
      assert (log + s)[i] == log[i];
    }
  }

  lemma SerialExtends(log: Log, table: string, ends: seq<nat>, s: Log, c: nat)
    requires Serial(log, table, ends) && Statement(s, table, c)
    ensures Serial(log + s, table, ends + [|log| + c])
  {
    var log', ends' := log + s, ends + [|log| + c];
    assert forall k: nat | k <= |ends| :: From(ends', k) == From(ends, k);
    assert From(ends, |ends|) <= |log| by { EndsWithin(log, table, ends); }
    forall k: nat | k < |ends'|
      ensures Releases(log', table, ends', k)
    {
      if k < |ends| {
        ReleasesAsLogGrows(log, table, ends, s, |log| + c, k);
      } else {
        var i: nat :| i < c && s[i].Change?;
        assert log'[|log| + i] == s[i] && log'[|log| + c] == s[c];
        assert From(ends', k) <= |log| + i;
      }
    }
    forall j: nat, k: nat | j < k < |ends'|
      ensures ends'[j] < ends'[k]
    {
      StatementReleases(log, table, ends, j);
    }
    forall i: nat | i < |log'| && i !in ends'
      ensures log'[i] == Quiet || exists k: nat :: k < |ends'| && Belongs(log', table, ends', k, i)
    {
      if i < |log| {
        assert i !in ends;
        if log[i] != Quiet {
          var k: nat :| k < |ends| && Belongs(log, table, ends, k, i);
          assert Belongs(log', table, ends', k, i);
        }
      } else if log'[i] != Quiet {
        assert log'[i] == s[i - |log|] && log'[|log| + c] == s[c];
        assert Belongs(log', table, ends', |ends|, i);
      }
    }
  }

  // --- the program's own writer ---------------------------------------------------------------

  /** An insert: its transaction begins, writes the row, commits and ends. */
  function Insert(txn: nat, row: int): Log {
    [Quiet, Change(txn, "inventory", row), Commit(txn), Quiet]
  }

  /**
   An update archives the version it replaces before it writes the new one. When the new version does
   not fit in place the write is two records, and the first stands for both in the feed.
   */
  function Update(txn: nat, row: int, moved: bool): Log {
    [Quiet, Quiet, Change(txn, "inventory", row)] + (if moved then [Quiet] else []) + [Commit(txn), Quiet]
  }

  /** Row `n` is inserted, and every fifth is then updated. */
  function Rows(n: nat, txn: nat -> nat, moved: nat -> bool): Log {
    Insert(txn(2 * n), n) + if n % 5 == 0 then Update(txn(2 * n + 1), n, moved(n)) else []
  }

  /** The table, and `n` rows. */
  function Written(n: nat, txn: nat -> nat, moved: nat -> bool): Log {
    if n == 0 then [Ddl("inventory", 0)] else Written(n - 1, txn, moved) + Rows(n, txn, moved)
  }

  /** Where row `n`'s statements end in a log that they extend. */
  function RowsEnds(at: nat, n: nat, moved: nat -> bool): seq<nat> {
    if n % 5 == 0 then [at + 2, at + if moved(n) then 8 else 7] else [at + 2]
  }

  function WrittenEnds(n: nat, txn: nat -> nat, moved: nat -> bool): seq<nat> {
    if n == 0 then [0]
    else WrittenEnds(n - 1, txn, moved) + RowsEnds(|Written(n - 1, txn, moved)|, n, moved)
  }

  lemma InsertIsStatement(txn: nat, row: int)
    ensures Statement(Insert(txn, row), "inventory", 2) && |Insert(txn, row)| == 4
  {
    assert Insert(txn, row)[1].Change?;
  }

  lemma UpdateIsStatement(txn: nat, row: int, moved: bool)
    ensures Statement(Update(txn, row, moved), "inventory", if moved then 4 else 3)
  {
    assert Update(txn, row, moved)[2].Change?;
  }

  /** The log the program writes is serial. */
  lemma {:induction false} WrittenIsSerial(n: nat, txn: nat -> nat, moved: nat -> bool)
    ensures Serial(Written(n, txn, moved), "inventory", WrittenEnds(n, txn, moved))
    decreases n
  {
    hide Serial, Statement;
    if n == 0 {
      TableIsSerial();
    } else {
      WrittenIsSerial(n - 1, txn, moved);
      RowsAreSerial(Written(n - 1, txn, moved), WrittenEnds(n - 1, txn, moved), n, txn, moved);
    }
  }

  lemma RowsAreSerial(log: Log, ends: seq<nat>, n: nat, txn: nat -> nat, moved: nat -> bool)
    requires Serial(log, "inventory", ends)
    ensures Serial(log + Rows(n, txn, moved), "inventory", ends + RowsEnds(|log|, n, moved))
  {
    hide Serial, Statement, Insert, Update;
    var insert, update := Insert(txn(2 * n), n), Update(txn(2 * n + 1), n, moved(n));
    InsertIsStatement(txn(2 * n), n);
    UpdateIsStatement(txn(2 * n + 1), n, moved(n));
    SerialExtends(log, "inventory", ends, insert, 2);
    if n % 5 == 0 {
      SerialExtends(log + insert, "inventory", ends + [|log| + 2], update, if moved(n) then 4 else 3);
      assert log + (insert + update) == log + insert + update;
      assert ends + RowsEnds(|log|, n, moved) == ends + [|log| + 2] + [|log| + if moved(n) then 8 else 7];
    } else {
      assert insert + [] == insert;
    }
  }

  lemma TableIsSerial()
    ensures Serial([Ddl("inventory", 0)], "inventory", [0])
  {
    var log, ends := [Ddl("inventory", 0)], [0];
    assert Releases(log, "inventory", ends, 0);
  }

  /**
   So a clean close of the program has sent every row of its log, whatever rows were updated and whichever
   updates moved, exactly when no two statements are a window apart.
   */
  lemma WorkloadIsServedIff(n: nat, txn: nat -> nat, moved: nat -> bool, p: Policy, w: Window)
    requires p.snapshot.tables == {} && "inventory" !in p.excluded + p.refused && Usable(w)
    ensures var log := Written(n, txn, moved);
            (forall run | IsRun(run, p, w) && ClosesOn(run, log) :: SentAll(run, log, p)) <==>
            Spaced(w, WrittenEnds(n, txn, moved))
  {
    hide *;
    WrittenIsSerial(n, txn, moved);
    SerialIsServedIff(Written(n, txn, moved), p, w, "inventory", WrittenEnds(n, txn, moved));
  }

  /** A log's statements each end at most five records after the one before. */
  predicate Close(log: Log, ends: seq<nat>) {
    && ends != [] && |log| <= ends[|ends| - 1] + 2
    && forall k: nat | k < |ends| :: ends[k] <= From(ends, k) + 5
  }

  lemma RowsAreClose(log: Log, ends: seq<nat>, n: nat, txn: nat -> nat, moved: nat -> bool)
    requires Close(log, ends)
    ensures Close(log + Rows(n, txn, moved), ends + RowsEnds(|log|, n, moved))
  {
    var more := RowsEnds(|log|, n, moved);
    assert |Rows(n, txn, moved)| == if n % 5 != 0 then 4 else if moved(n) then 10 else 9;
    hide Rows, Insert, Update;
    forall k: nat | k < |ends + more|
      ensures (ends + more)[k] <= From(ends + more, k) + 5
    {
      assert k <= |ends| ==> From(ends + more, k) == From(ends, k);
    }
  }

  lemma {:induction false} WrittenIsClose(n: nat, txn: nat -> nat, moved: nat -> bool)
    ensures Close(Written(n, txn, moved), WrittenEnds(n, txn, moved))
    decreases n
  {
    hide Rows, RowsEnds;
    if n > 0 {
      WrittenIsClose(n - 1, txn, moved);
      RowsAreClose(Written(n - 1, txn, moved), WrittenEnds(n - 1, txn, moved), n, txn, moved);
    }
  }

  lemma {:induction false} FewRecords(w: Window, b: nat, i: nat, j: nat)
    requires i <= j && forall k: nat :: w.start(k + 1) <= w.start(k) + b
    ensures w.start(j) <= w.start(i) + b * (j - i)
    decreases j
  {
    if i < j {
      FewRecords(w, b, i, j - 1);
      assert w.start(j - 1 + 1) <= w.start(j - 1) + b;
      assert b * (j - i) == b * (j - 1 - i) + b;
    }
  }

  /** In particular, a window longer than five records serves it all. */
  lemma WorkloadIsServed(
      run: seq<State>, n: nat, txn: nat -> nat, moved: nat -> bool, p: Policy, w: Window, b: nat)
    requires p.snapshot.tables == {} && Usable(w)
    requires (forall k: nat :: w.start(k + 1) <= w.start(k) + b) && w.bytes > 5 * b
    requires IsRun(run, p, w) && ClosesOn(run, Written(n, txn, moved))
    ensures SentAll(run, Written(n, txn, moved), p)
  {
    hide IsRun, SentAll, ClosesOn, Usable, Written, WrittenEnds;
    var ends := WrittenEnds(n, txn, moved);
    WrittenIsClose(n, txn, moved);
    forall k: nat | k < |ends|
      ensures Within(w, From(ends, k), ends[k])
    {
      WithinFive(w, b, From(ends, k), ends[k]);
    }
    WrittenIsSerial(n, txn, moved);
    SpacedIsServed(Written(n, txn, moved), p, w, "inventory", ends);
  }

  lemma WithinFive(w: Window, b: nat, i: nat, j: nat)
    requires (forall k: nat :: w.start(k + 1) <= w.start(k) + b) && w.bytes > 5 * b && Usable(w) && j <= i + 5
    ensures Within(w, i, j)
  {
    if i <= j {
      FewRecords(w, b, i, j);
      assert b * (j - i) <= b * 5;
    } else {
      assert w.start(j) < w.start(i);
    }
  }
}
