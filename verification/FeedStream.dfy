/**
 The producer's side of the feed: decoding a log of interleaved transactions into committed changes,
 and the pump that follows it with a read cursor and a delivery position.

 Positions are record numbers: record i starts at position i and ends at i + 1. Only the window of a
 pump counts bytes, and it is given where each record starts.
 */
module FeedStream {

  datatype Record =
    | Change(txn: nat, table: string, row: int)
    | Commit(txn: nat)
    | Abort(txn: nat)
    | Ddl(table: string, shape: int)
    | Quiet

  type Log = seq<Record>

  /** One event of the feed: the record that made it, and the commit that made it visible. */
  datatype ChangeEvent = ChangeEvent(txn: nat, at: nat, commit: nat, table: string, row: int)

  predicate Ends(log: Log, j: nat, txn: nat) {
    j < |log| && (log[j] == Commit(txn) || log[j] == Abort(txn))
  }

  /** The transaction of the change at `i` has ended below `end`. */
  predicate Finished(log: Log, i: nat, end: nat)
    requires i < |log| && log[i].Change?
  {
    exists j: nat | i < j < end :: Ends(log, j, log[i].txn)
  }

  /** The changes of a transaction read in [from, end) that it has neither committed nor aborted. */
  function Pending(log: Log, from: nat, end: nat, txn: nat): seq<nat>
    requires end <= |log|
  {
    if end <= from then []
    else
      var r := log[end - 1];
      if r.Change? && r.txn == txn then Pending(log, from, end - 1, txn) + [end - 1]
      else if Ends(log, end - 1, txn) then []
      else Pending(log, from, end - 1, txn)
  }

  predicate AreChanges(log: Log, changes: seq<nat>) {
    forall k :: 0 <= k < |changes| ==> changes[k] < |log| && log[changes[k]].Change?
  }

  lemma {:induction false} PendingAreChanges(log: Log, from: nat, end: nat, txn: nat)
    requires end <= |log|
    ensures AreChanges(log, Pending(log, from, end, txn))
    decreases end
  {
    if end > from {
      PendingAreChanges(log, from, end - 1, txn);
    }
  }

  function Release(log: Log, changes: seq<nat>, commit: nat): (r: seq<ChangeEvent>)
    requires AreChanges(log, changes)
    ensures |r| == |changes|
  {
    seq(|changes|, k requires 0 <= k < |changes| =>
      var c := log[changes[k]]; ChangeEvent(c.txn, changes[k], commit, c.table, c.row))
  }

  /** What the record at `c` makes visible to a walk that started at `from`. */
  function EventsAt(log: Log, from: nat, c: nat): seq<ChangeEvent>
    requires c < |log|
  {
    match log[c]
    case Commit(txn) =>
      PendingAreChanges(log, from, c, txn);
      Release(log, Pending(log, from, c, txn), c)
    case Ddl(table, shape) => [ChangeEvent(0, c, c, table, shape)]
    case _ => []
  }

  /** Committed changes in [from, end), in commit order. */
  function Decoded(log: Log, from: nat, end: nat): seq<ChangeEvent>
    requires end <= |log|
  {
    if end <= from then [] else Decoded(log, from, end - 1) + EventsAt(log, from, end - 1)
  }

  /** The earliest change in [i, end) whose transaction is still open at `end`; `end` when there is none. */
  function OpenFrom(log: Log, i: nat, end: nat): nat
    requires i <= end <= |log|
    decreases end - i
  {
    if i == end then end
    else if log[i].Change? && !Finished(log, i, end) then i
    else OpenFrom(log, i + 1, end)
  }

  // ---------------------------------------------------------------------------------------------
  // The decoder as it runs: one walk, staging per transaction and releasing on commit.

  method Decode(log: Log, from: nat, end: nat) returns (events: seq<ChangeEvent>, openFrom: nat)
    requires from <= end <= |log|
    ensures events == Decoded(log, from, end)
    ensures openFrom == OpenFrom(log, from, end)
  {
    var staged: map<nat, seq<nat>> := map[];
    events := [];
    assert StagedIs(log, from, from, staged) && Decoded(log, from, from) == [];
    hide Pending, StagedIs, OpenFrom, Finished, Decoded, EventsAt, Release, AreChanges;
    for i := from to end
      invariant StagedIs(log, from, i, staged)
      invariant events == Decoded(log, from, i)
    {
      var r := log[i];
      StagedNext(log, from, i, staged);
      DecodedNext(log, from, i, staged);
      if r.Change? {
        var soFar := if r.txn in staged then staged[r.txn] else [];
        staged := staged[r.txn := soFar + [i]];
      } else if r.Commit? {
        if r.txn in staged {
          events := events + Release(log, staged[r.txn], i);
          staged := staged - {r.txn};
        }
      } else if r.Abort? {
        staged := staged - {r.txn};
      } else if r.Ddl? {
        events := events + [ChangeEvent(0, i, i, r.table, r.shape)];
      }
    }
    openFrom := Earliest(log, from, end, staged);
  }

  ghost predicate StagedIs(log: Log, from: nat, end: nat, staged: map<nat, seq<nat>>)
    requires end <= |log|
  {
    forall txn: nat :: Pending(log, from, end, txn) == if txn in staged then staged[txn] else []
  }

  /** What one record adds to the decoded changes. */
  lemma DecodedNext(log: Log, from: nat, i: nat, staged: map<nat, seq<nat>>)
    requires from <= i < |log| && StagedIs(log, from, i, staged)
    ensures match log[i]
            case Commit(txn) =>
              if txn in staged
              then
                && AreChanges(log, staged[txn])
                && Decoded(log, from, i + 1) == Decoded(log, from, i) + Release(log, staged[txn], i)
              else Decoded(log, from, i + 1) == Decoded(log, from, i)
            case Ddl(table, shape) =>
              Decoded(log, from, i + 1) == Decoded(log, from, i) + [ChangeEvent(0, i, i, table, shape)]
            case _ => Decoded(log, from, i + 1) == Decoded(log, from, i)
  {
    hide Pending;
    if log[i].Commit? {
      var txn := log[i].txn;
      PendingAreChanges(log, from, i, txn);
      assert Pending(log, from, i, txn) == if txn in staged then staged[txn] else [];
    }
    assert Decoded(log, from, i) + [] == Decoded(log, from, i);
  }

  /** What one record does to the staged changes. */
  lemma StagedNext(log: Log, from: nat, i: nat, staged: map<nat, seq<nat>>)
    requires from <= i < |log| && StagedIs(log, from, i, staged)
    ensures match log[i]
            case Change(txn, _, _) =>
              StagedIs(log, from, i + 1, staged[txn := (if txn in staged then staged[txn] else []) + [i]])
            case Commit(txn) =>
              StagedIs(log, from, i + 1, staged - {txn}) && (txn !in staged ==> StagedIs(log, from, i + 1, staged))
            case Abort(txn) => StagedIs(log, from, i + 1, staged - {txn})
            case _ => StagedIs(log, from, i + 1, staged)
  {
  }

  /** The least position staged by any transaction, or `end`. */
  method Earliest(log: Log, from: nat, end: nat, staged: map<nat, seq<nat>>) returns (least: nat)
    requires from <= end <= |log| && StagedIs(log, from, end, staged)
    ensures least == OpenFrom(log, from, end)
  {
    least := end;
    var todo := staged.Keys;
    while todo != {}
      invariant todo <= staged.Keys
      invariant least == end || (from <= least < end && log[least].Change? && !Finished(log, least, end))
      invariant forall txn :: txn in staged && txn !in todo ==>
        forall k :: 0 <= k < |staged[txn]| ==> least <= staged[txn][k]
      decreases todo
    {
      var txn :| txn in todo;
      assert staged[txn] == Pending(log, from, end, txn);
      PendingExact(log, from, end, txn);
      PendingInOrder(log, from, end, txn);
      if staged[txn] != [] && staged[txn][0] < least {
        assert staged[txn][0] in staged[txn];
        least := staged[txn][0];
      }
      todo := todo - {txn};
    }
    forall i: nat | from <= i < end && log[i].Change? && !Finished(log, i, end)
      ensures least <= i
    {
      PendingExact(log, from, end, log[i].txn);
      assert i in Pending(log, from, end, log[i].txn);
    }
    OpenFromIsLeast(log, from, end, least);
  }

  /** A staged change is exactly one read whose transaction has not ended. */
  lemma {:induction false} PendingExact(log: Log, from: nat, end: nat, txn: nat)
    requires end <= |log|
    ensures forall i: nat :: i in Pending(log, from, end, txn) <==>
              from <= i < end && log[i].Change? && log[i].txn == txn && !Finished(log, i, end)
    decreases end
  {
    if end > from {
      PendingExact(log, from, end - 1, txn);
      forall i: nat | from <= i < end - 1 && log[i].Change? && log[i].txn == txn
        ensures Finished(log, i, end) <==> Finished(log, i, end - 1) || Ends(log, end - 1, txn)
      {
      }
    }
  }

  /** Increasing positions, all below a bound. */
  predicate Ascending(p: seq<nat>, bound: nat) {
    && (forall k :: 0 <= k < |p| ==> p[k] < bound)
    && (forall k, m :: 0 <= k < m < |p| ==> p[k] < p[m])
  }

  /** Staged changes are held in log order. */
  lemma {:induction false} PendingInOrder(log: Log, from: nat, end: nat, txn: nat)
    requires end <= |log|
    ensures Ascending(Pending(log, from, end, txn), end)
    decreases end
  {
    if end > from {
      PendingInOrder(log, from, end - 1, txn);
    }
  }

  lemma {:induction false} OpenFromIsLeast(log: Log, i: nat, end: nat, least: nat)
    requires i <= end <= |log| && i <= least
    requires least == end || (least < end && log[least].Change? && !Finished(log, least, end))
    requires forall k: nat :: i <= k < end && log[k].Change? && !Finished(log, k, end) ==> least <= k
    ensures OpenFrom(log, i, end) == least
    decreases end - i
  {
    if i < least {
      OpenFromIsLeast(log, i + 1, end, least);
    }
  }

  // ---------------------------------------------------------------------------------------------
  // The pump.

  /** What a snapshot delivered: the tables it wrote, and the transactions its rows contain. */
  datatype Boundary = Boundary(tables: set<string>, txns: set<nat>)

  const NO_SNAPSHOT := Boundary({}, {})

  /** Tables the operator excludes, work a snapshot already delivered, and tables it must refuse. */
  datatype Policy = Policy(excluded: set<string>, snapshot: Boundary, refused: set<string>)

  /** Schema changes are logged under transaction 0, which no snapshot contains. */
  predicate DropsWork(p: Policy, table: string, txn: nat) {
    table in p.excluded || (table in p.snapshot.tables && txn != 0 && txn in p.snapshot.txns)
  }

  predicate Drops(p: Policy, e: ChangeEvent) {
    DropsWork(p, e.table, e.txn)
  }

  /** The events that would be delivered: not dropped, and past what was delivered before. */
  function Candidates(p: Policy, through: nat, events: seq<ChangeEvent>): seq<ChangeEvent> {
    if events == [] then []
    else
      var init, last := Candidates(p, through, events[..|events| - 1]), events[|events| - 1];
      if Drops(p, last) || last.commit < through then init else init + [last]
  }

  /** The commit of the first event the publication refuses. */
  function RefusedCommit(p: Policy, events: seq<ChangeEvent>): (r: nat)
    requires exists e :: e in events && e.table in p.refused
    ensures exists e :: e in events && e.table in p.refused && e.commit == r
  {
    if events[0].table in p.refused then events[0].commit else RefusedCommit(p, events[1..])
  }

  predicate HasRefusal(p: Policy, events: seq<ChangeEvent>) {
    exists e :: e in events && e.table in p.refused
  }

  /** The events ahead of the commit that holds the refused one. */
  function Ahead(events: seq<ChangeEvent>, commit: nat): seq<ChangeEvent> {
    if events == [] || events[0].commit == commit then [] else [events[0]] + Ahead(events[1..], commit)
  }

  /** The furthest commit end among the events below a bound, or `base`. */
  function FurthestEnd(events: seq<ChangeEvent>, bound: nat, base: nat): nat {
    if events == [] then base
    else
      var init, last := FurthestEnd(events[..|events| - 1], bound, base), events[|events| - 1];
      if last.commit < bound && last.commit + 1 > init then last.commit + 1 else init
  }

  function Min(a: nat, b: nat): nat {
    if a < b then a else b
  }

  /** What one pump did; `window` is how far it read. */
  datatype Pumped = Pumped(emitted: seq<ChangeEvent>, cursor: nat, through: nat, refusal: bool, window: nat)

  /** Where each record starts, in bytes, and how many bytes of log one pump will read into. */
  datatype Window = Window(start: nat -> nat, bytes: nat)

  ghost predicate Usable(w: Window) {
    w.bytes >= 1 && forall i: nat, j: nat :: i < j ==> w.start(i) < w.start(j)
  }

  /** A record that starts within a window opened at the cursor. */
  predicate Within(w: Window, cursor: nat, i: nat) {
    w.start(i) < w.start(cursor) + w.bytes
  }

  /** The first record at or after `i` that a window opened at the cursor does not reach. */
  function Extent(w: Window, cursor: nat, i: nat, frontier: nat): (end: nat)
    requires i <= frontier
    ensures i <= end <= frontier && (forall k: nat | i <= k < end :: Within(w, cursor, k))
    ensures end == frontier || !Within(w, cursor, end)
    decreases frontier - i
  {
    if i < frontier && Within(w, cursor, i) then Extent(w, cursor, i + 1, frontier) else i
  }

  /** How far a pump reads: past every record that starts in its window, to the durable frontier at most. */
  function End(w: Window, cursor: nat, frontier: nat): (end: nat)
    requires cursor <= frontier
    ensures cursor <= end <= frontier && (w.bytes >= 1 && cursor < frontier ==> cursor < end)
    ensures (forall k: nat | cursor <= k < end :: Within(w, cursor, k)) && (end == frontier || !Within(w, cursor, end))
  {
    Extent(w, cursor, cursor, frontier)
  }

  /** It reads exactly the records that start fewer bytes past the cursor than the window has. */
  lemma ReadsWhatStartsInside(w: Window, cursor: nat, frontier: nat, i: nat)
    requires Usable(w) && cursor <= i < frontier
    ensures i < End(w, cursor, frontier) <==> w.start(i) < w.start(cursor) + w.bytes
  {
    var end := End(w, cursor, frontier);
    if i < end {
      assert Within(w, cursor, i);
    } else {
      assert end < i ==> w.start(end) < w.start(i);
    }
  }

  /** Read from the cursor to the end of the window, and deliver. */
  function Pump(log: Log, p: Policy, cursor: nat, through: nat, frontier: nat, w: Window): Pumped
    requires frontier <= |log| && Usable(w)
  {
    if cursor >= frontier then Pumped([], cursor, through, false, frontier)
    else
      var end := End(w, cursor, frontier);
      var events := Decoded(log, cursor, end);
      var candidates := Candidates(p, through, events);
      var refusal := HasRefusal(p, candidates);
      var bound := if refusal then RefusedCommit(p, candidates) else |log|;
      var owned := if refusal then Ahead(candidates, bound) else candidates;
      Pumped(owned,
             Min(FurthestEnd(events, bound, cursor), OpenFrom(log, cursor, end)),
             FurthestEnd(owned, |log|, through),
             refusal,
             end)
  }

  // ---------------------------------------------------------------------------------------------
  // Exactly once, in commit order.

  /** What the log makes deliverable below `n`: every committed change not dropped, in commit order. */
  function Deliverable(log: Log, p: Policy, n: nat): seq<ChangeEvent>
    requires n <= |log|
  {
    Candidates(p, 0, Decoded(log, 0, n))
  }

  /** A change record whose transaction is still open at `reach`. */
  predicate OpenAt(log: Log, i: nat, reach: nat) {
    i < |log| && log[i].Change? && !Finished(log, i, reach)
  }

  /** Nothing below the cursor belongs to a transaction still open at `reach`. */
  ghost predicate NothingSteppedOver(log: Log, cursor: nat, reach: nat) {
    forall i: nat :: i < cursor ==> !OpenAt(log, i, reach)
  }

  /** The commit at `j` is what makes the change at `i` visible. */
  predicate ReleasedAt(log: Log, i: nat, j: nat) {
    i < j < |log| && log[i].Change? && log[j] == Commit(log[i].txn) && !Finished(log, i, j)
  }

  /** A change that is not dropped, and is committed in [reach, n). */
  ghost predicate Owed(log: Log, p: Policy, i: nat, reach: nat, n: nat) {
    && i < |log| && log[i].Change? && !DropsWork(p, log[i].table, log[i].txn)
    && exists j: nat | reach <= j < n :: ReleasedAt(log, i, j)
  }

  /** Nothing below the cursor is still owed by a consumer that reads on from `reach` to `n`. */
  ghost predicate Clear(log: Log, p: Policy, cursor: nat, reach: nat, n: nat) {
    forall i: nat :: i < cursor ==> !Owed(log, p, i, reach, n)
  }

  /** A consumer that has been sent `out`: what is deliverable below `reach`, none of which comes again. */
  ghost predicate ServedTo(
    log: Log, p: Policy, cursor: nat, through: nat, reach: nat, out: seq<ChangeEvent>)
  {
    && cursor <= reach <= |log| && through <= reach
    && out == Deliverable(log, p, reach)
    && (forall e :: e in out ==> e.commit < through || e.commit < cursor)
  }

  /** ... and whose cursor has stepped over nothing still open, however the log goes on. */
  ghost predicate Exact(log: Log, p: Policy, cursor: nat, through: nat, reach: nat, out: seq<ChangeEvent>) {
    ServedTo(log, p, cursor, through, reach, out) && NothingSteppedOver(log, cursor, reach)
  }

  lemma ExactIsClear(log: Log, p: Policy, cursor: nat, reach: nat, n: nat)
    requires NothingSteppedOver(log, cursor, reach)
    ensures Clear(log, p, cursor, reach, n)
  {
    forall i: nat, j: nat | i < cursor && reach <= j < n
      ensures !ReleasedAt(log, i, j)
    {
      assert !OpenAt(log, i, reach);
    }
  }

  lemma {:induction false} CandidatesConcat(p: Policy, through: nat, a: seq<ChangeEvent>, b: seq<ChangeEvent>)
    ensures Candidates(p, through, a + b) == Candidates(p, through, a) + Candidates(p, through, b)
    decreases |b|
  {
    if b == [] {
      assert a + b == a;
    } else {
      CandidatesConcat(p, through, a, b[..|b| - 1]);
      assert (a + b)[..|a + b| - 1] == a + b[..|b| - 1];
    }
  }

  lemma {:induction false} CandidatesAre(p: Policy, through: nat, events: seq<ChangeEvent>)
    ensures forall e :: e in Candidates(p, through, events) <==> e in events && !Drops(p, e) && e.commit >= through
    decreases |events|
  {
    if events != [] {
      CandidatesAre(p, through, events[..|events| - 1]);
      assert events == events[..|events| - 1] + [events[|events| - 1]];
    }
  }

  lemma {:induction false} NoneIsCandidate(p: Policy, through: nat, events: seq<ChangeEvent>)
    requires forall e :: e in events ==> Drops(p, e) || e.commit < through
    ensures Candidates(p, through, events) == []
    decreases |events|
  {
    if events != [] {
      NoneIsCandidate(p, through, events[..|events| - 1]);
    }
  }

  lemma {:induction false} SameCandidates(p: Policy, a: nat, b: nat, events: seq<ChangeEvent>)
    requires forall e :: e in events ==> e.commit >= a && e.commit >= b
    ensures Candidates(p, a, events) == Candidates(p, b, events)
    decreases |events|
  {
    if events != [] {
      SameCandidates(p, a, b, events[..|events| - 1]);
    }
  }

  lemma EventsAtCommit(log: Log, from: nat, c: nat)
    requires c < |log|
    ensures forall e :: e in EventsAt(log, from, c) ==> e.commit == c
  {
  }

  /** A walk that starts later sees, at a commit, a part of what a walk from the start sees there. */
  lemma EventsAtSubset(log: Log, from: nat, c: nat)
    requires c < |log|
    ensures forall e :: e in EventsAt(log, from, c) ==> e in EventsAt(log, 0, c)
  {
    if log[c].Commit? {
      var txn := log[c].txn;
      PendingExact(log, from, c, txn);
      PendingExact(log, 0, c, txn);
      var q := Pending(log, 0, c, txn);
      forall e | e in EventsAt(log, from, c)
        ensures e in EventsAt(log, 0, c)
      {
        assert e.at in Pending(log, from, c, txn);
        assert e.at in q;
        var k :| 0 <= k < |q| && q[k] == e.at;
        assert EventsAt(log, 0, c)[k] == e;
      }
    }
  }

  /** What a walk from the start has staged is what a walk from the cursor has, after some changes below it. */
  lemma {:induction false} PendingSplits(log: Log, cursor: nat, c: nat, txn: nat) returns (early: seq<nat>)
    requires cursor <= c <= |log|
    ensures Pending(log, 0, c, txn) == early + Pending(log, cursor, c, txn)
    ensures forall i :: i in early ==> i < cursor
    decreases c
  {
    if c == cursor {
      early := Pending(log, 0, c, txn);
      PendingExact(log, 0, c, txn);
    } else {
      early := PendingSplits(log, cursor, c - 1, txn);
      if Ends(log, c - 1, txn) {
        early := [];
      }
    }
  }

  /** Past `reach`, a walk from a clear cursor misses only what is dropped anyway. */
  lemma CommitFromCursor(log: Log, p: Policy, cursor: nat, reach: nat, c: nat)
    requires cursor <= reach <= c < |log| && Clear(log, p, cursor, reach, c + 1) && log[c].Commit?
    ensures Candidates(p, 0, EventsAt(log, cursor, c)) == Candidates(p, 0, EventsAt(log, 0, c))
  {
    hide Candidates, Pending, Finished;
    var txn := log[c].txn;
    var early := PendingSplits(log, cursor, c, txn);
    var rest := Pending(log, cursor, c, txn);
    PendingAreChanges(log, 0, c, txn);
    PendingAreChanges(log, cursor, c, txn);
    PendingExact(log, 0, c, txn);
    assert forall k :: 0 <= k < |early| ==> (early + rest)[k] == early[k];
    assert Release(log, early + rest, c) == Release(log, early, c) + Release(log, rest, c);
    forall e | e in Release(log, early, c)
      ensures Drops(p, e)
    {
      assert e.at in early && e.at in early + rest && e.at in Pending(log, 0, c, txn);
      assert ReleasedAt(log, e.at, c) && !Owed(log, p, e.at, reach, c + 1);
    }
    NoneIsCandidate(p, 0, Release(log, early, c));
    CandidatesConcat(p, 0, Release(log, early, c), Release(log, rest, c));
  }

  /** What a walk from the start releases at the commits in [lo, hi). */
  function Span(log: Log, lo: nat, hi: nat): seq<ChangeEvent>
    requires hi <= |log|
  {
    if hi <= lo then [] else Span(log, lo, hi - 1) + EventsAt(log, 0, hi - 1)
  }

  lemma {:induction false} SpanSplits(log: Log, lo: nat, hi: nat)
    requires lo <= hi <= |log|
    ensures Decoded(log, 0, hi) == Decoded(log, 0, lo) + Span(log, lo, hi)
    decreases hi
  {
    hide EventsAt;
    if hi > lo {
      SpanSplits(log, lo, hi - 1);
    }
  }

  lemma {:induction false} SpanCommits(log: Log, lo: nat, hi: nat)
    requires lo <= hi <= |log|
    ensures forall e :: e in Span(log, lo, hi) ==> lo <= e.commit < hi
    decreases hi
  {
    hide EventsAt;
    if hi > lo {
      SpanCommits(log, lo, hi - 1);
      EventsAtCommit(log, 0, hi - 1);
    }
  }

  /** An event seen at a commit already reached is dropped, or was delivered. */
  lemma OldEventsAreNotCandidates(
    log: Log, p: Policy, cursor: nat, through: nat, reach: nat, out: seq<ChangeEvent>, c: nat)
    requires ServedTo(log, p, cursor, through, reach, out) && cursor <= c < reach
    ensures Candidates(p, through, EventsAt(log, cursor, c)) == []
  {
    var events := EventsAt(log, cursor, c);
    EventsAtSubset(log, cursor, c);
    EventsAtCommit(log, cursor, c);
    CandidatesAre(p, 0, Decoded(log, 0, reach));
    DecodedHas(log, reach, c);
    NoneIsCandidate(p, through, events);
  }

  lemma {:induction false} DecodedHas(log: Log, n: nat, c: nat)
    requires c < n <= |log|
    ensures forall e :: e in EventsAt(log, 0, c) ==> e in Decoded(log, 0, n)
    decreases n
  {
    if c < n - 1 {
      DecodedHas(log, n - 1, c);
    }
  }

  /** Reading on from the cursor, the candidates are exactly what became deliverable since. */
  lemma {:induction false} CandidatesAreNew(
    log: Log, p: Policy, cursor: nat, through: nat, reach: nat, out: seq<ChangeEvent>, end: nat)
    requires ServedTo(log, p, cursor, through, reach, out) && end <= |log| && Clear(log, p, cursor, reach, end)
    ensures Candidates(p, through, Decoded(log, cursor, end)) == Candidates(p, 0, Span(log, reach, end))
    decreases end
  {
    hide EventsAt, Candidates, Deliverable, Owed;
    if end > cursor {
      ClearBelow(log, p, cursor, reach, end - 1, end);
      CandidatesAreNew(log, p, cursor, through, reach, out, end - 1);
      CandidatesConcat(p, through, Decoded(log, cursor, end - 1), EventsAt(log, cursor, end - 1));
      if end - 1 < reach {
        OldEventsAreNotCandidates(log, p, cursor, through, reach, out, end - 1);
      } else {
        NewEventsAreCandidates(log, p, cursor, through, reach, end - 1);
        CandidatesConcat(p, 0, Span(log, reach, end - 1), EventsAt(log, 0, end - 1));
      }
    } else {
      NoCandidates(p, through);
    }
  }

  lemma NoCandidates(p: Policy, through: nat)
    ensures Candidates(p, through, []) == [] == Candidates(p, 0, [])
  {
  }

  lemma ClearBelow(log: Log, p: Policy, cursor: nat, reach: nat, m: nat, n: nat)
    requires m <= n && Clear(log, p, cursor, reach, n)
    ensures Clear(log, p, cursor, reach, m)
  {
    forall i: nat | i < cursor
      ensures !Owed(log, p, i, reach, m)
    {
      assert !Owed(log, p, i, reach, n);
    }
  }

  lemma NewEventsAreCandidates(log: Log, p: Policy, cursor: nat, through: nat, reach: nat, c: nat)
    requires cursor <= reach <= c < |log| && through <= reach && Clear(log, p, cursor, reach, c + 1)
    ensures Candidates(p, through, EventsAt(log, cursor, c)) == Candidates(p, 0, EventsAt(log, 0, c))
  {
    hide Candidates, Clear;
    if log[c].Commit? {
      CommitFromCursor(log, p, cursor, reach, c);
    }
    EventsAtCommit(log, cursor, c);
    hide EventsAt;
    SameCandidates(p, through, 0, EventsAt(log, cursor, c));
  }

  // --- one pump -------------------------------------------------------------------------------

  lemma {:induction false} FurthestEndBounds(events: seq<ChangeEvent>, bound: nat, base: nat)
    ensures FurthestEnd(events, bound, base) >= base
    ensures forall e :: e in events && e.commit < bound ==> e.commit < FurthestEnd(events, bound, base)
    ensures FurthestEnd(events, bound, base) == base ||
            exists e :: e in events && e.commit < bound && e.commit + 1 == FurthestEnd(events, bound, base)
    decreases |events|
  {
    if events != [] {
      var init, last := events[..|events| - 1], events[|events| - 1];
      FurthestEndBounds(init, bound, base);
      assert events == init + [last];
      if last.commit < bound && last.commit + 1 > FurthestEnd(init, bound, base) {
        assert last in events;
      } else if FurthestEnd(init, bound, base) != base {
        var e :| e in init && e.commit < bound && e.commit + 1 == FurthestEnd(init, bound, base);
        assert e in events;
      }
    }
  }

  lemma {:induction false} DecodedCommits(log: Log, from: nat, end: nat)
    requires end <= |log|
    ensures forall e :: e in Decoded(log, from, end) ==> from <= e.commit < end
    decreases end
  {
    hide EventsAt;
    if end > from {
      DecodedCommits(log, from, end - 1);
      EventsAtCommit(log, from, end - 1);
    }
  }

  lemma {:induction false} OpenFromBounds(log: Log, i: nat, end: nat)
    requires i <= end <= |log|
    ensures i <= OpenFrom(log, i, end) <= end
    ensures forall k: nat :: i <= k < OpenFrom(log, i, end) ==> !OpenAt(log, k, end)
    decreases end - i
  {
    if i < end && !(log[i].Change? && !Finished(log, i, end)) {
      OpenFromBounds(log, i + 1, end);
    }
  }

  lemma ClosedStays(log: Log, i: nat, reach: nat, further: nat)
    requires reach <= further && !OpenAt(log, i, reach)
    ensures !OpenAt(log, i, further)
  {
  }

  /** The new cursor steps over nothing still open where the pump stopped reading. */
  lemma CursorStepsOverNothing(log: Log, cursor: nat, reach: nat, end: nat, next: nat)
    requires cursor <= reach <= |log| && cursor <= end <= |log| && NothingSteppedOver(log, cursor, reach)
    requires next <= OpenFrom(log, cursor, end)
    ensures NothingSteppedOver(log, next, if end > reach then end else reach)
  {
    var further := if end > reach then end else reach;
    OpenFromBounds(log, cursor, end);
    forall i: nat | i < next
      ensures !OpenAt(log, i, further)
    {
      ClosedStays(log, i, if i < cursor then reach else end, further);
    }
  }

  /** How far a consumer has been served after a pump that refused nothing. */
  function Reach(reach: nat, window: nat): nat {
    if window > reach then window else reach
  }

  /** A pump from a clear cursor, with nothing to refuse, emits what became deliverable up to where it read. */
  lemma PumpServes(log: Log, p: Policy, cursor: nat, through: nat, reach: nat, out: seq<ChangeEvent>,
                   frontier: nat, w: Window)
    requires ServedTo(log, p, cursor, through, reach, out) && frontier <= |log| && Usable(w)
    requires var r := Pump(log, p, cursor, through, frontier, w);
             !r.refusal && Clear(log, p, cursor, reach, r.window)
    ensures var r := Pump(log, p, cursor, through, frontier, w);
            ServedTo(log, p, r.cursor, r.through, Reach(reach, r.window), out + r.emitted) && cursor <= r.cursor
  {
    hide Decoded, OpenFrom, Candidates, FurthestEnd, Clear;
    if cursor < frontier {
      var end := End(w, cursor, frontier);
      var events := Decoded(log, cursor, end);
      var owned := Candidates(p, through, events);
      CandidatesAreNew(log, p, cursor, through, reach, out, end);
      NewDeliverable(log, p, reach, end);
      PositionsAfter(log, p, cursor, through, reach, end);
      FurthestEndBounds(owned, |log|, through);
      CandidatesAre(p, through, events);
      DecodedCommits(log, cursor, end);
    } else {
      NothingPastReach(log, p, cursor, reach, frontier);
      assert out + [] == out;
    }
  }

  lemma NothingPastReach(log: Log, p: Policy, cursor: nat, reach: nat, frontier: nat)
    requires frontier <= cursor <= reach <= |log|
    ensures Reach(reach, frontier) == reach
  {
  }

  lemma Bounds(log: Log, p: Policy, cursor: nat, through: nat, reach: nat, out: seq<ChangeEvent>)
    requires ServedTo(log, p, cursor, through, reach, out)
    ensures cursor <= reach <= |log| && through <= reach
  {
  }

  /**
   A pump with nothing to refuse keeps the consumer exact: it emits precisely what became deliverable
   between where it had been served to and where this pump read to.
   */
  lemma PumpIsExact(log: Log, p: Policy, cursor: nat, through: nat, reach: nat, out: seq<ChangeEvent>,
                    frontier: nat, w: Window)
    requires Exact(log, p, cursor, through, reach, out) && frontier <= |log| && Usable(w)
    requires !Pump(log, p, cursor, through, frontier, w).refusal
    ensures var r := Pump(log, p, cursor, through, frontier, w);
            Exact(log, p, r.cursor, r.through, Reach(reach, r.window), out + r.emitted) && cursor <= r.cursor
  {
    hide Decoded, OpenFrom, Candidates, FurthestEnd, ServedTo, Clear, NothingSteppedOver;
    var r := Pump(log, p, cursor, through, frontier, w);
    ExactIsClear(log, p, cursor, reach, r.window);
    PumpServes(log, p, cursor, through, reach, out, frontier, w);
    Bounds(log, p, cursor, through, reach, out);
    if cursor < frontier {
      CursorStepsOverNothing(log, cursor, reach, r.window, r.cursor);
    }
  }

  lemma NewDeliverable(log: Log, p: Policy, reach: nat, end: nat)
    requires reach <= |log| && end <= |log|
    ensures Deliverable(log, p, Reach(reach, end)) ==
            Deliverable(log, p, reach) + Candidates(p, 0, Span(log, reach, end))
  {
    hide Decoded, Candidates;
    if end > reach {
      SpanSplits(log, reach, end);
      CandidatesConcat(p, 0, Decoded(log, 0, reach), Span(log, reach, end));
    } else {
      NoCandidates(p, 0);
    }
  }

  lemma PositionsAfter(log: Log, p: Policy, cursor: nat, through: nat, reach: nat, end: nat)
    requires cursor <= reach <= |log| && cursor <= end <= |log| && through <= reach
    ensures var events := Decoded(log, cursor, end);
            && cursor <= Min(FurthestEnd(events, |log|, cursor), OpenFrom(log, cursor, end)) <= end
            && through <= FurthestEnd(Candidates(p, through, events), |log|, through) <= Reach(reach, end)
  {
    hide Decoded, OpenFrom, Candidates, FurthestEnd;
    var events := Decoded(log, cursor, end);
    FurthestEndBounds(events, |log|, cursor);
    FurthestEndBounds(Candidates(p, through, events), |log|, through);
    CandidatesAre(p, through, events);
    DecodedCommits(log, cursor, end);
    OpenFromBounds(log, cursor, end);
  }

  // --- the log grows --------------------------------------------------------------------------

  lemma {:induction false} PendingPrefix(log: Log, more: Log, from: nat, end: nat, txn: nat)
    requires end <= |log|
    ensures Pending(log + more, from, end, txn) == Pending(log, from, end, txn)
    decreases end
  {
    if end > from {
      PendingPrefix(log, more, from, end - 1, txn);
    }
  }

  lemma EventsAtPrefix(log: Log, more: Log, from: nat, c: nat)
    requires c < |log|
    ensures EventsAt(log + more, from, c) == EventsAt(log, from, c)
  {
    assert (log + more)[c] == log[c];
    if log[c].Commit? {
      var txn := log[c].txn;
      PendingPrefix(log, more, from, c, txn);
      PendingAreChanges(log, from, c, txn);
      var changes := Pending(log, from, c, txn);
      assert forall k :: 0 <= k < |changes| ==> (log + more)[changes[k]] == log[changes[k]];
      hide Pending, Ends;
      assert Release(log + more, changes, c) == Release(log, changes, c);
    }
  }

  lemma {:induction false} DecodedPrefix(log: Log, more: Log, from: nat, end: nat)
    requires end <= |log|
    ensures Decoded(log + more, from, end) == Decoded(log, from, end)
    decreases end
  {
    hide EventsAt;
    if end > from {
      DecodedPrefix(log, more, from, end - 1);
      EventsAtPrefix(log, more, from, end - 1);
    }
  }

  /** What was delivered stays exact however the log grows. */
  lemma ExactAsLogGrows(
    log: Log, more: Log, p: Policy, cursor: nat, through: nat, reach: nat, out: seq<ChangeEvent>)
    requires Exact(log, p, cursor, through, reach, out)
    ensures Exact(log + more, p, cursor, through, reach, out)
  {
    hide Decoded, Candidates;
    DecodedPrefix(log, more, 0, reach);
    forall i: nat | i < cursor
      ensures !OpenAt(log + more, i, reach)
    {
      assert !OpenAt(log, i, reach);
      if log[i].Change? {
        var j: nat :| i < j < reach && Ends(log, j, log[i].txn);
        assert Ends(log + more, j, (log + more)[i].txn);
      }
    }
  }

  // --- a refusal ------------------------------------------------------------------------------

  lemma {:induction false} SpanConcat(log: Log, lo: nat, mid: nat, hi: nat)
    requires lo <= mid <= hi <= |log|
    ensures Span(log, lo, hi) == Span(log, lo, mid) + Span(log, mid, hi)
    decreases hi
  {
    if hi > mid {
      SpanConcat(log, lo, mid, hi - 1);
    }
  }

  lemma {:induction false} AheadOf(a: seq<ChangeEvent>, b: seq<ChangeEvent>, commit: nat)
    requires forall e :: e in a ==> e.commit != commit
    requires b == [] || b[0].commit == commit
    ensures Ahead(a + b, commit) == a
    decreases |a|
  {
    if a == [] {
      assert a + b == b;
    } else {
      assert (a + b)[1..] == a[1..] + b;
      AheadOf(a[1..], b, commit);
    }
  }

  /** Everything ahead of the refused commit is what became deliverable below it. */
  lemma AheadIsDeliverable(log: Log, p: Policy, reach: nat, end: nat, commit: nat)
    requires reach <= commit < end <= |log|
    requires exists e :: e in Candidates(p, 0, Span(log, reach, end)) && e.commit == commit
    ensures Ahead(Candidates(p, 0, Span(log, reach, end)), commit) == Candidates(p, 0, Span(log, reach, commit))
  {
    hide EventsAt, Candidates;
    var a, b := Span(log, reach, commit), Span(log, commit, end);
    SpanConcat(log, reach, commit, end);
    CandidatesConcat(p, 0, a, b);
    var ca, cb := Candidates(p, 0, a), Candidates(p, 0, b);
    CandidatesAre(p, 0, a);
    CandidatesAre(p, 0, b);
    SpanCommits(log, reach, commit);
    SpanCommits(log, commit, end);
    var here, later := Span(log, commit, commit + 1), Span(log, commit + 1, end);
    SpanConcat(log, commit, commit + 1, end);
    CandidatesConcat(p, 0, here, later);
    SpanCommits(log, commit, commit + 1);
    SpanCommits(log, commit + 1, end);
    CandidatesAre(p, 0, here);
    CandidatesAre(p, 0, later);
    var e: ChangeEvent :| e in ca + cb && e.commit == commit;
    assert e in Candidates(p, 0, here);
    assert cb[0] == Candidates(p, 0, here)[0] && cb[0] in Candidates(p, 0, here);
    AheadOf(ca, cb, commit);
  }

  lemma RefusedIsNew(log: Log, p: Policy, reach: nat, end: nat, commit: nat)
    requires reach <= |log| && end <= |log|
    requires exists e :: e in Candidates(p, 0, Span(log, reach, end)) && e.table in p.refused && e.commit == commit
    ensures reach <= commit < end
  {
    hide Span;
    CandidatesAre(p, 0, Span(log, reach, end));
    if reach <= end {
      SpanCommits(log, reach, end);
    } else {
      EmptySpan(log, reach, end);
    }
  }

  lemma EmptySpan(log: Log, lo: nat, hi: nat)
    requires hi <= lo && hi <= |log|
    ensures Span(log, lo, hi) == []
  {
  }

  /** The event's change was read in [from, end), and its transaction has ended. */
  ghost predicate WasRead(log: Log, from: nat, end: nat, e: ChangeEvent) {
    from <= e.at < end && !OpenAt(log, e.at, end)
  }

  lemma ReleasedAtCommit(log: Log, from: nat, c: nat)
    requires from <= c < |log|
    ensures forall e :: e in EventsAt(log, from, c) ==> WasRead(log, from, c + 1, e)
  {
    if log[c].Commit? {
      var txn := log[c].txn;
      PendingExact(log, from, c, txn);
      forall e | e in EventsAt(log, from, c)
        ensures WasRead(log, from, c + 1, e)
      {
        assert e.at in Pending(log, from, c, txn);
        assert Ends(log, c, log[e.at].txn);
      }
    }
  }

  lemma WasReadStays(log: Log, from: nat, c: nat, e: ChangeEvent)
    requires WasRead(log, from, c, e)
    ensures WasRead(log, from, c + 1, e)
  {
  }

  /** A walk only ever releases changes it has read, and only once they are committed. */
  lemma {:induction false} ReleasedWasRead(log: Log, from: nat, end: nat)
    requires end <= |log|
    ensures forall e :: e in Decoded(log, from, end) ==> WasRead(log, from, end, e)
    decreases end
  {
    hide EventsAt, WasRead;
    if end > from {
      ReleasedWasRead(log, from, end - 1);
      ReleasedAtCommit(log, from, end - 1);
      var init, last := Decoded(log, from, end - 1), EventsAt(log, from, end - 1);
      forall e | e in init + last
        ensures WasRead(log, from, end, e)
      {
        if e in init {
          WasReadStays(log, from, end - 1, e);
        }
      }
    }
  }

  lemma PumpStaysPast(log: Log, p: Policy, cursor: nat, through: nat, frontier: nat, w: Window)
    requires frontier <= |log| && Usable(w)
    ensures var r := Pump(log, p, cursor, through, frontier, w);
            cursor <= r.cursor && forall e :: e in r.emitted ==> cursor <= e.at
  {
    hide Decoded, OpenFrom, Candidates, FurthestEnd;
    if cursor < frontier {
      var end := End(w, cursor, frontier);
      var events := Decoded(log, cursor, end);
      ReleasedWasRead(log, cursor, end);
      CandidatesAre(p, through, events);
      OpenFromBounds(log, cursor, end);
      var candidates := Candidates(p, through, events);
      var bound := if HasRefusal(p, candidates) then RefusedCommit(p, candidates) else |log|;
      FurthestEndBounds(events, bound, cursor);
      AheadIsPart(candidates, bound);
    }
  }

  /** One later pump: of any log, under any policy, to any frontier. */
  datatype Call = Call(log: Log, policy: Policy, frontier: nat, w: Window)

  ghost predicate Callable(c: Call) {
    c.frontier <= |c.log| && Usable(c.w)
  }

  /** Everything a sequence of pumps emits, each resuming where the last left off. */
  function PumpAll(cursor: nat, through: nat, calls: seq<Call>): seq<ChangeEvent>
    requires forall c :: c in calls ==> Callable(c)
    decreases |calls|
  {
    if calls == [] then []
    else
      assert Callable(calls[0]);
      var r := Pump(calls[0].log, calls[0].policy, cursor, through, calls[0].frontier, calls[0].w);
      r.emitted + PumpAll(r.cursor, r.through, calls[1..])
  }

  /** What a cursor has stepped over is lost for good: no sequence of later pumps ever emits it. */
  lemma {:induction false} SteppedOverIsLost(cursor: nat, through: nat, calls: seq<Call>, i: nat)
    requires i < cursor && forall c :: c in calls ==> Callable(c)
    ensures forall e :: e in PumpAll(cursor, through, calls) ==> e.at != i
    decreases |calls|
  {
    hide Pump;
    if calls != [] {
      var c := calls[0];
      assert Callable(c);
      var r := Pump(c.log, c.policy, cursor, through, c.frontier, c.w);
      PumpStaysPast(c.log, c.policy, cursor, through, c.frontier, c.w);
      SteppedOverIsLost(r.cursor, r.through, calls[1..], i);
    }
  }

  // --- later pumps ----------------------------------------------------------------------------

  predicate SameDrops(p: Policy, q: Policy) {
    p.excluded == q.excluded && p.snapshot == q.snapshot
  }

  /** Later pumps that refuse nothing, of a log that only grows, under policies that drop the same work. */
  ghost predicate Unrefused(log: Log, p: Policy, cursor: nat, through: nat, calls: seq<Call>)
    decreases |calls|
  {
    calls == [] ||
    var c := calls[0];
    && Callable(c) && log <= c.log && SameDrops(p, c.policy)
    && var r := Pump(c.log, c.policy, cursor, through, c.frontier, c.w);
       !r.refusal && Unrefused(c.log, p, r.cursor, r.through, calls[1..])
  }

  /** The log as the last of them finds it. */
  function LastLog(log: Log, calls: seq<Call>): Log {
    if calls == [] then log else calls[|calls| - 1].log
  }

  /** How far they have read between them. */
  function ReachAfter(cursor: nat, through: nat, reach: nat, calls: seq<Call>): nat
    requires forall c :: c in calls ==> Callable(c)
    decreases |calls|
  {
    if calls == [] then reach
    else
      assert Callable(calls[0]);
      var r := Pump(calls[0].log, calls[0].policy, cursor, through, calls[0].frontier, calls[0].w);
      ReachAfter(r.cursor, r.through, Reach(reach, r.window), calls[1..])
  }

  lemma {:induction false} UnrefusedAreCallable(log: Log, p: Policy, cursor: nat, through: nat, calls: seq<Call>)
    requires Unrefused(log, p, cursor, through, calls)
    ensures (forall c :: c in calls ==> Callable(c)) && log <= LastLog(log, calls)
    decreases |calls|
  {
    hide Pump;
    if calls != [] {
      var c := calls[0];
      var r := Pump(c.log, c.policy, cursor, through, c.frontier, c.w);
      UnrefusedAreCallable(c.log, p, r.cursor, r.through, calls[1..]);
      assert LastLog(log, calls) == LastLog(c.log, calls[1..]);
    }
  }

  lemma {:induction false} SameCandidatesFor(p: Policy, q: Policy, through: nat, events: seq<ChangeEvent>)
    requires SameDrops(p, q)
    ensures Candidates(p, through, events) == Candidates(q, through, events)
    decreases |events|
  {
    if events != [] {
      SameCandidatesFor(p, q, through, events[..|events| - 1]);
    }
  }

  /** The refused tables of a policy have no part in what is owed or has been served. */
  lemma SamePolicy(log: Log, p: Policy, q: Policy, cursor: nat, through: nat, reach: nat, out: seq<ChangeEvent>, n: nat)
    requires SameDrops(p, q) && reach <= |log|
    ensures ServedTo(log, p, cursor, through, reach, out) ==> ServedTo(log, q, cursor, through, reach, out)
    ensures Clear(log, p, cursor, reach, n) ==> Clear(log, q, cursor, reach, n)
  {
    hide Decoded, Candidates, ReleasedAt;
    SameCandidatesFor(p, q, 0, Decoded(log, 0, reach));
    if Clear(log, p, cursor, reach, n) {
      forall i: nat | i < cursor
        ensures !Owed(log, q, i, reach, n)
      {
        assert !Owed(log, p, i, reach, n);
      }
    }
  }

  lemma FinishedPrefix(log: Log, more: Log, i: nat, end: nat)
    requires i < |log| && log[i].Change? && end <= |log|
    ensures Finished(log + more, i, end) <==> Finished(log, i, end)
  {
    if Finished(log, i, end) {
      var j: nat :| i < j < end && Ends(log, j, log[i].txn);
      assert Ends(log + more, j, log[i].txn);
    }
    if Finished(log + more, i, end) {
      var j: nat :| i < j < end && Ends(log + more, j, log[i].txn);
      assert Ends(log, j, log[i].txn);
    }
  }

  lemma {:induction false} OpenFromPrefix(log: Log, more: Log, i: nat, end: nat)
    requires i <= end <= |log|
    ensures OpenFrom(log + more, i, end) == OpenFrom(log, i, end)
    decreases end - i
  {
    hide Finished;
    if i < end {
      OpenFromPrefix(log, more, i + 1, end);
      if log[i].Change? {
        FinishedPrefix(log, more, i, end);
      }
    }
  }

  lemma {:induction false} FurthestEndBound(events: seq<ChangeEvent>, m: nat, n: nat, base: nat)
    requires forall e :: e in events ==> e.commit < m && e.commit < n
    ensures FurthestEnd(events, m, base) == FurthestEnd(events, n, base)
    decreases |events|
  {
    if events != [] {
      FurthestEndBound(events[..|events| - 1], m, n, base);
    }
  }

  /** A pump sees nothing of the log past its frontier. */
  lemma PumpPrefix(log: Log, more: Log, p: Policy, cursor: nat, through: nat, frontier: nat, w: Window)
    requires frontier <= |log| && Usable(w)
    ensures Pump(log + more, p, cursor, through, frontier, w) == Pump(log, p, cursor, through, frontier, w)
  {
    hide Decoded, OpenFrom, Candidates, FurthestEnd, RefusedCommit, Ahead;
    if cursor < frontier {
      var end := End(w, cursor, frontier);
      DecodedPrefix(log, more, cursor, end);
      OpenFromPrefix(log, more, cursor, end);
      var events := Decoded(log, cursor, end);
      DecodedCommits(log, cursor, end);
      var candidates := Candidates(p, through, events);
      CandidatesAre(p, through, events);
      FurthestEndBound(events, |log|, |log + more|, cursor);
      FurthestEndBound(candidates, |log|, |log + more|, through);
      if HasRefusal(p, candidates) {
        var bound := RefusedCommit(p, candidates);
        AheadIsPart(candidates, bound);
        FurthestEndBound(Ahead(candidates, bound), |log|, |log + more|, through);
      }
    }
  }

  /** What is clear stays clear as a pump moves the cursor on. */
  lemma StaysClear(log: Log, p: Policy, cursor: nat, reach: nat, end: nat, next: nat, n: nat)
    requires cursor <= reach <= |log| && cursor <= end <= |log| && Clear(log, p, cursor, reach, n)
    requires next <= OpenFrom(log, cursor, end)
    ensures Clear(log, p, next, Reach(reach, end), n)
  {
    OpenFromBounds(log, cursor, end);
    var further := Reach(reach, end);
    forall i: nat | i < next
      ensures !Owed(log, p, i, further, n)
    {
      if i < cursor {
        assert !Owed(log, p, i, reach, n);
      } else {
        assert !OpenAt(log, i, end);
      }
    }
  }

  lemma PumpStaysClear(log: Log, p: Policy, cursor: nat, through: nat, reach: nat, frontier: nat, w: Window, n: nat)
    requires cursor <= reach <= |log| && frontier <= |log| && Usable(w) && Clear(log, p, cursor, reach, n)
    ensures var r := Pump(log, p, cursor, through, frontier, w);
            Clear(log, p, r.cursor, Reach(reach, r.window), n) && r.window <= |log|
  {
    hide Decoded, OpenFrom, Candidates, FurthestEnd, Clear;
    if cursor < frontier {
      var r := Pump(log, p, cursor, through, frontier, w);
      StaysClear(log, p, cursor, reach, r.window, r.cursor, n);
    }
  }

  lemma {:induction false} ReachGrows(cursor: nat, through: nat, reach: nat, calls: seq<Call>)
    requires forall c :: c in calls ==> Callable(c)
    ensures reach <= ReachAfter(cursor, through, reach, calls)
    decreases |calls|
  {
    hide Pump;
    if calls != [] {
      var c := calls[0];
      assert Callable(c);
      var r := Pump(c.log, c.policy, cursor, through, c.frontier, c.w);
      ReachGrows(r.cursor, r.through, Reach(reach, r.window), calls[1..]);
    }
  }

  lemma ServedAsLogGrows(log: Log, more: Log, p: Policy, cursor: nat, through: nat, reach: nat, out: seq<ChangeEvent>)
    requires ServedTo(log, p, cursor, through, reach, out)
    ensures ServedTo(log + more, p, cursor, through, reach, out)
  {
    hide Decoded, Candidates;
    DecodedPrefix(log, more, 0, reach);
  }

  /** One of the later pumps, seen on the log they end with. */
  lemma LaterPumpServes(
    last: Log, p: Policy, cursor: nat, through: nat, reach: nat, out: seq<ChangeEvent>, c: Call, n: nat)
    requires Callable(c) && c.log <= last && SameDrops(p, c.policy)
    requires ServedTo(last, p, cursor, through, reach, out) && Clear(last, p, cursor, reach, n)
    requires var r := Pump(c.log, c.policy, cursor, through, c.frontier, c.w); !r.refusal && r.window <= n
    ensures var r := Pump(c.log, c.policy, cursor, through, c.frontier, c.w);
            && ServedTo(last, p, r.cursor, r.through, Reach(reach, r.window), out + r.emitted)
            && Clear(last, p, r.cursor, Reach(reach, r.window), n)
  {
    hide Pump, ServedTo, Clear;
    var q, r := c.policy, Pump(c.log, c.policy, cursor, through, c.frontier, c.w);
    assert last == c.log + last[|c.log|..];
    PumpPrefix(c.log, last[|c.log|..], q, cursor, through, c.frontier, c.w);
    Bounds(last, p, cursor, through, reach, out);
    SamePolicy(last, p, q, cursor, through, reach, out, n);
    ClearBelow(last, q, cursor, reach, r.window, n);
    PumpServes(last, q, cursor, through, reach, out, c.frontier, c.w);
    PumpStaysClear(last, q, cursor, through, reach, c.frontier, c.w, n);
    Bounds(last, q, r.cursor, r.through, Reach(reach, r.window), out + r.emitted);
    SamePolicy(last, q, p, r.cursor, r.through, Reach(reach, r.window), out + r.emitted, n);
  }

  lemma {:induction false} ClearIsServed(
    last: Log, log: Log, p: Policy, cursor: nat, through: nat, reach: nat, out: seq<ChangeEvent>, calls: seq<Call>)
    requires Unrefused(log, p, cursor, through, calls) && last == LastLog(log, calls)
    requires forall c :: c in calls ==> Callable(c)
    requires ServedTo(last, p, cursor, through, reach, out)
    requires Clear(last, p, cursor, reach, ReachAfter(cursor, through, reach, calls))
    ensures var n := ReachAfter(cursor, through, reach, calls);
            n <= |last| && out + PumpAll(cursor, through, calls) == Deliverable(last, p, n)
    decreases |calls|
  {
    hide Pump, Deliverable, Clear;
    if calls == [] {
      assert out + [] == out;
    } else {
      var c, n := calls[0], ReachAfter(cursor, through, reach, calls);
      var r := Pump(c.log, c.policy, cursor, through, c.frontier, c.w);
      UnrefusedAreCallable(c.log, p, r.cursor, r.through, calls[1..]);
      assert last == LastLog(c.log, calls[1..]);
      ReachGrows(r.cursor, r.through, Reach(reach, r.window), calls[1..]);
      LaterPumpServes(last, p, cursor, through, reach, out, c, n);
      ClearIsServed(last, c.log, p, r.cursor, r.through, Reach(reach, r.window), out + r.emitted, calls[1..]);
      assert out + (r.emitted + PumpAll(r.cursor, r.through, calls[1..]))
          == (out + r.emitted) + PumpAll(r.cursor, r.through, calls[1..]);
    }
  }

  /** A change owed in [reach, n) is deliverable there, and not before. */
  lemma OwedIsDeliverable(log: Log, p: Policy, i: nat, reach: nat, n: nat) returns (e: ChangeEvent)
    requires reach <= n <= |log| && Owed(log, p, i, reach, n)
    ensures e.at == i && e in Deliverable(log, p, n)
    ensures forall f :: f in Deliverable(log, p, reach) ==> f.at != i
  {
    hide Decoded, Candidates, Pending;
    var j: nat :| reach <= j < n && ReleasedAt(log, i, j);
    PendingExact(log, 0, j, log[i].txn);
    PendingAreChanges(log, 0, j, log[i].txn);
    var q := Pending(log, 0, j, log[i].txn);
    assert i in q;
    var k :| 0 <= k < |q| && q[k] == i;
    e := EventsAt(log, 0, j)[k];
    DecodedHas(log, n, j);
    CandidatesAre(p, 0, Decoded(log, 0, n));
    assert OpenAt(log, i, reach);
    DeliveredWasCommitted(log, p, reach, i);
  }

  /**
   Whatever pumps follow, as long as none refuses, together they bring a consumer from what it has been
   sent to all that is deliverable where they stop reading exactly when no change below the cursor is
   committed in between, other than ones the policy drops.
   */
  lemma RestIsServedIff(
    log: Log, p: Policy, cursor: nat, through: nat, reach: nat, out: seq<ChangeEvent>, calls: seq<Call>)
    requires ServedTo(log, p, cursor, through, reach, out) && Unrefused(log, p, cursor, through, calls)
    ensures forall c :: c in calls ==> Callable(c)
    ensures var last, n := LastLog(log, calls), ReachAfter(cursor, through, reach, calls);
            && reach <= n <= |last|
            && (out + PumpAll(cursor, through, calls) == Deliverable(last, p, n) <==> Clear(last, p, cursor, reach, n))
  {
    hide Deliverable, Clear, Owed, Pump;
    UnrefusedAreCallable(log, p, cursor, through, calls);
    var last, n := LastLog(log, calls), ReachAfter(cursor, through, reach, calls);
    assert last == log + last[|log|..];
    ServedAsLogGrows(log, last[|log|..], p, cursor, through, reach, out);
    ReachGrows(cursor, through, reach, calls);
    ReachInLog(log, p, cursor, through, reach, calls);
    if Clear(last, p, cursor, reach, n) {
      ClearIsServed(last, log, p, cursor, through, reach, out, calls);
    } else {
      var i := FirstOwed(last, p, cursor, reach, n);
      var e := OwedIsDeliverable(last, p, i, reach, n);
      SteppedOverIsLost(cursor, through, calls, i);
      assert e !in out + PumpAll(cursor, through, calls);
    }
  }

  lemma FirstOwed(log: Log, p: Policy, cursor: nat, reach: nat, n: nat) returns (i: nat)
    requires !Clear(log, p, cursor, reach, n)
    ensures i < cursor && Owed(log, p, i, reach, n)
  {
    i :| i < cursor && Owed(log, p, i, reach, n);
  }

  lemma {:induction false} ReachInLog(log: Log, p: Policy, cursor: nat, through: nat, reach: nat, calls: seq<Call>)
    requires Unrefused(log, p, cursor, through, calls) && reach <= |log| && forall c :: c in calls ==> Callable(c)
    ensures ReachAfter(cursor, through, reach, calls) <= |LastLog(log, calls)|
    decreases |calls|
  {
    if calls != [] {
      var c := calls[0];
      var r := Pump(c.log, c.policy, cursor, through, c.frontier, c.w);
      assert r.window <= |c.log|;
      hide Pump;
      ReachInLog(c.log, p, r.cursor, r.through, Reach(reach, r.window), calls[1..]);
      assert LastLog(log, calls) == LastLog(c.log, calls[1..]);
    }
  }

  /**
   Reconnecting at the end `q` of the last commit received, with no delivery position: the new connection
   sends exactly the rest if and only if no change below `q`, other than dropped ones, is committed after it.
   */
  lemma ReconnectServesTheRestIff(log: Log, p: Policy, q: nat, calls: seq<Call>)
    requires q <= |log| && Unrefused(log, p, q, 0, calls)
    ensures forall c :: c in calls ==> Callable(c)
    ensures var last, n := LastLog(log, calls), ReachAfter(q, 0, q, calls);
            && q <= n <= |last|
            && (Deliverable(log, p, q) + PumpAll(q, 0, calls) == Deliverable(last, p, n) <==>
                forall i: nat | i < q :: !Owed(last, p, i, q, n))
  {
    hide Decoded, Candidates, Owed, PumpAll, ReachAfter, Unrefused;
    CandidatesAre(p, 0, Decoded(log, 0, q));
    DecodedCommits(log, 0, q);
    RestIsServedIff(log, p, q, 0, q, Deliverable(log, p, q), calls);
  }

  /**
   A log that a checkpoint truncated where nothing was open: a consumer that connects at its new base is
   sent exactly what is deliverable since, and nothing from before.
   */
  lemma TruncatedLogServesTheRest(log: Log, p: Policy, base: nat, calls: seq<Call>)
    requires base <= |log| && Unrefused(log, p, base, 0, calls) && NothingSteppedOver(log, base, base)
    ensures forall c :: c in calls ==> Callable(c)
    ensures var last, n := LastLog(log, calls), ReachAfter(base, 0, base, calls);
            && base <= n <= |last| && Deliverable(log, p, base) + PumpAll(base, 0, calls) == Deliverable(last, p, n)
            && forall e :: e in PumpAll(base, 0, calls) ==> base <= e.at
  {
    hide Owed, PumpAll, ReachAfter, Unrefused, Deliverable, NothingSteppedOver;
    UnrefusedAreCallable(log, p, base, 0, calls);
    var last, n := LastLog(log, calls), ReachAfter(base, 0, base, calls);
    assert last == log + last[|log|..];
    SteppedOverNothingYet(log, last[|log|..], base);
    ExactIsClear(last, p, base, base, n);
    ReconnectServesTheRestIff(log, p, base, calls);
    forall e | e in PumpAll(base, 0, calls)
      ensures base <= e.at
    {
      if e.at < base {
        SteppedOverIsLost(base, 0, calls, e.at);
      }
    }
  }

  lemma SteppedOverNothingYet(log: Log, more: Log, base: nat)
    requires base <= |log| && NothingSteppedOver(log, base, base)
    ensures NothingSteppedOver(log + more, base, base)
  {
    forall i: nat | i < base
      ensures !OpenAt(log + more, i, base)
    {
      assert !OpenAt(log, i, base);
      if log[i].Change? {
        FinishedPrefix(log, more, i, base);
      }
    }
  }

  // --- a refusal ------------------------------------------------------------------------------

  /** The first commit past `reach` that would deliver a change of a refused table. */
  ghost predicate FirstRefused(log: Log, p: Policy, reach: nat, commit: nat) {
    && reach <= commit < |log|
    && HasRefusal(p, Candidates(p, 0, EventsAt(log, 0, commit)))
    && forall c: nat | reach <= c < commit :: !HasRefusal(p, Candidates(p, 0, EventsAt(log, 0, c)))
  }

  /**
   A change the refusal steps over: not dropped, committed at or after the refused commit within the
   window, with a commit read ahead of the refused one after it and nothing up to it left open.
   */
  ghost predicate Sacrificed(log: Log, p: Policy, cursor: nat, commit: nat, end: nat, i: nat) {
    && cursor <= i && Owed(log, p, i, commit, end)
    && (exists k: nat | i < k < commit :: EventsAt(log, cursor, k) != [])
    && (forall h: nat | cursor <= h <= i :: !OpenAt(log, h, end))
  }

  lemma {:induction false} DecodedNonEmpty(log: Log, cursor: nat, end: nat, k: nat) returns (e: ChangeEvent)
    requires cursor <= k < end <= |log| && EventsAt(log, cursor, k) != []
    ensures e in Decoded(log, cursor, end) && e.commit == k
    decreases end
  {
    if k == end - 1 {
      e := EventsAt(log, cursor, k)[0];
      EventsAtCommit(log, cursor, k);
    } else {
      e := DecodedNonEmpty(log, cursor, end - 1, k);
    }
  }

  lemma {:induction false} DecodedFrom(log: Log, cursor: nat, end: nat, e: ChangeEvent)
    requires end <= |log| && e in Decoded(log, cursor, end)
    ensures cursor <= e.commit < end && EventsAt(log, cursor, e.commit) != []
    decreases end
  {
    hide EventsAt;
    if e in EventsAt(log, cursor, end - 1) {
      EventsAtCommit(log, cursor, end - 1);
    } else {
      DecodedFrom(log, cursor, end - 1, e);
    }
  }

  /** Where the refusal leaves the cursor, told from the log. */
  lemma RefusalPasses(log: Log, cursor: nat, end: nat, commit: nat, i: nat)
    requires cursor <= i < commit < end <= |log| && log[i].Change?
    ensures i < Min(FurthestEnd(Decoded(log, cursor, end), commit, cursor), OpenFrom(log, cursor, end)) <==>
            && (exists k: nat | i < k < commit :: EventsAt(log, cursor, k) != [])
            && (forall h: nat | cursor <= h <= i :: !OpenAt(log, h, end))
  {
    hide Decoded, FurthestEnd, OpenFrom, EventsAt, OpenAt;
    var events := Decoded(log, cursor, end);
    var furthest := FurthestEnd(events, commit, cursor);
    FurthestEndBounds(events, commit, cursor);
    OpenFromStops(log, cursor, end);
    if i < furthest {
      var e :| e in events && e.commit < commit && e.commit + 1 == furthest;
      DecodedFrom(log, cursor, end, e);
      ChangeReleasesNothing(log, cursor, i);
      assert i < e.commit;
    }
    if exists k: nat | i < k < commit :: EventsAt(log, cursor, k) != [] {
      var k: nat :| i < k < commit && EventsAt(log, cursor, k) != [];
      var e := DecodedNonEmpty(log, cursor, end, k);
    }
  }

  lemma ChangeReleasesNothing(log: Log, cursor: nat, i: nat)
    requires i < |log| && log[i].Change?
    ensures EventsAt(log, cursor, i) == []
  {
  }

  lemma {:induction false} OpenFromStops(log: Log, i: nat, end: nat)
    requires i <= end <= |log|
    ensures i <= OpenFrom(log, i, end) <= end
    ensures forall k: nat :: i <= k < OpenFrom(log, i, end) ==> !OpenAt(log, k, end)
    ensures OpenFrom(log, i, end) < end ==> OpenAt(log, OpenFrom(log, i, end), end)
    decreases end - i
  {
    if i < end && !(log[i].Change? && !Finished(log, i, end)) {
      OpenFromStops(log, i + 1, end);
    }
  }

  lemma {:induction false} RefusedInFront(p: Policy, a: seq<ChangeEvent>, b: seq<ChangeEvent>)
    requires HasRefusal(p, a + b)
    ensures if HasRefusal(p, a) then RefusedCommit(p, a + b) == RefusedCommit(p, a)
            else HasRefusal(p, b) && RefusedCommit(p, a + b) == RefusedCommit(p, b)
    decreases |a|
  {
    if a == [] {
      assert a + b == b;
    } else if a[0].table !in p.refused {
      assert (a + b)[1..] == a[1..] + b;
      RefusedInFront(p, a[1..], b);
      assert forall e :: e in a <==> e == a[0] || e in a[1..];
    }
  }

  lemma {:induction false} RefusedIsFirst(log: Log, p: Policy, lo: nat, hi: nat)
    requires lo <= hi <= |log|
    ensures !HasRefusal(p, Candidates(p, 0, Span(log, lo, hi))) ==>
              forall c: nat | lo <= c < hi :: !HasRefusal(p, Candidates(p, 0, EventsAt(log, 0, c)))
    ensures HasRefusal(p, Candidates(p, 0, Span(log, lo, hi))) ==>
              FirstRefused(log, p, lo, RefusedCommit(p, Candidates(p, 0, Span(log, lo, hi))))
    decreases hi
  {
    hide EventsAt, Candidates;
    if hi == lo {
      NoCandidates(p, 0);
    } else {
      RefusedIsFirst(log, p, lo, hi - 1);
      var a, b := Candidates(p, 0, Span(log, lo, hi - 1)), Candidates(p, 0, EventsAt(log, 0, hi - 1));
      CandidatesConcat(p, 0, Span(log, lo, hi - 1), EventsAt(log, 0, hi - 1));
      EventsAtCommit(log, 0, hi - 1);
      CandidatesAre(p, 0, EventsAt(log, 0, hi - 1));
      if HasRefusal(p, a + b) {
        RefusedInFront(p, a, b);
      }
      assert forall e :: e in a || e in b ==> e in a + b;
    }
  }

  lemma ReleasedPrefix(log: Log, more: Log, i: nat, j: nat)
    requires j < |log|
    ensures ReleasedAt(log + more, i, j) <==> ReleasedAt(log, i, j)
  {
    if i < j && log[i].Change? {
      FinishedPrefix(log, more, i, j);
    }
  }

  /** What the refusal steps over is what it will owe, however the log goes on. */
  lemma SacrificedIsOwed(log: Log, more: Log, p: Policy, cursor: nat, reach: nat, end: nat, commit: nat, n: nat, i: nat)
    requires cursor <= reach <= commit < end <= |log| && end <= n && NothingSteppedOver(log, cursor, reach)
    ensures var next := Min(FurthestEnd(Decoded(log, cursor, end), commit, cursor), OpenFrom(log, cursor, end));
            i < next && Owed(log + more, p, i, commit, n) <==> Sacrificed(log, p, cursor, commit, end, i)
  {
    hide Decoded, FurthestEnd, OpenFrom, EventsAt;
    var next := Min(FurthestEnd(Decoded(log, cursor, end), commit, cursor), OpenFrom(log, cursor, end));
    if Sacrificed(log, p, cursor, commit, end, i) {
      var j: nat :| commit <= j < end && ReleasedAt(log, i, j);
      ReleasedPrefix(log, more, i, j);
      OwedBelow(log, p, cursor, commit, end, i);
      RefusalPasses(log, cursor, end, commit, i);
    }
    if i < next && Owed(log + more, p, i, commit, n) {
      FurthestEndBounds(Decoded(log, cursor, end), commit, cursor);
      OpenFromBounds(log, cursor, end);
      var j: nat :| commit <= j < n && ReleasedAt(log + more, i, j);
      FinishedPrefix(log, more, i, end);
      FinishedPrefix(log, more, i, reach);
      assert i < cursor ==> !OpenAt(log, i, reach);
      assert !OpenAt(log, i, end) && j < end;
      ReleasedPrefix(log, more, i, j);
      RefusalPasses(log, cursor, end, commit, i);
    }
  }

  lemma OwedBelow(log: Log, p: Policy, cursor: nat, commit: nat, end: nat, i: nat)
    requires commit < end <= |log| && Sacrificed(log, p, cursor, commit, end, i)
    ensures i < commit
  {
    var k: nat :| i < k < commit && EventsAt(log, cursor, k) != [];
  }

  /**
   A refusal holds back its whole commit and everything after it. Whatever pumps follow, of a log that
   only grows and with nothing more refused, all of it is served once they have read as far as this one
   exactly when this one sacrificed no change; and sacrificing is decided by the log it read.
   */
  lemma RefusalIsRecoverableIff(
    log: Log, p: Policy, cursor: nat, through: nat, reach: nat, out: seq<ChangeEvent>,
    frontier: nat, w: Window, calls: seq<Call>) returns (commit: nat)
    requires Exact(log, p, cursor, through, reach, out) && frontier <= |log| && Usable(w)
    requires var r := Pump(log, p, cursor, through, frontier, w);
             r.refusal && Unrefused(log, p, r.cursor, r.through, calls)
    ensures FirstRefused(log, p, reach, commit) && forall c :: c in calls ==> Callable(c)
    ensures var r := Pump(log, p, cursor, through, frontier, w);
            var last, n := LastLog(log, calls), ReachAfter(r.cursor, r.through, commit, calls);
            && out + r.emitted == Deliverable(log, p, commit) && commit < r.window && n <= |last|
            && (r.window <= n ==>
                 (out + r.emitted + PumpAll(r.cursor, r.through, calls) == Deliverable(last, p, n) <==>
                  forall i: nat :: !Sacrificed(log, p, cursor, commit, r.window, i)))
  {
    hide *;
    IsExact(log, p, cursor, through, reach, out);
    var r := Pump(log, p, cursor, through, frontier, w);
    commit := RefusalServes(log, p, cursor, through, reach, out, frontier, w);
    RestIsServedIff(log, p, r.cursor, r.through, commit, out + r.emitted, calls);
    UnrefusedAreCallable(log, p, r.cursor, r.through, calls);
    var last, n := LastLog(log, calls), ReachAfter(r.cursor, r.through, commit, calls);
    assert last == log + last[|log|..];
    if r.window <= n {
      ClearIffNoSacrifice(log, last[|log|..], p, cursor, reach, r.window, commit, n, r.cursor);
    }
  }

  lemma IsExact(log: Log, p: Policy, cursor: nat, through: nat, reach: nat, out: seq<ChangeEvent>)
    requires Exact(log, p, cursor, through, reach, out)
    ensures NothingSteppedOver(log, cursor, reach)
  {
  }

  lemma ClearIffNoSacrifice(
    log: Log, more: Log, p: Policy, cursor: nat, reach: nat, end: nat, commit: nat, n: nat, next: nat)
    requires cursor <= reach <= commit < end <= |log| && end <= n && NothingSteppedOver(log, cursor, reach)
    requires next == Min(FurthestEnd(Decoded(log, cursor, end), commit, cursor), OpenFrom(log, cursor, end))
    ensures Clear(log + more, p, next, commit, n) <==> forall i: nat :: !Sacrificed(log, p, cursor, commit, end, i)
  {
    hide Owed, Sacrificed, NothingSteppedOver, FurthestEnd, Decoded, OpenFrom;
    forall i: nat
      ensures i < next && Owed(log + more, p, i, commit, n) <==> Sacrificed(log, p, cursor, commit, end, i)
    {
      SacrificedIsOwed(log, more, p, cursor, reach, end, commit, n, i);
    }
  }

  /** What a refusing pump itself delivers, and where it leaves the two positions. */
  lemma RefusalServes(log: Log, p: Policy, cursor: nat, through: nat, reach: nat, out: seq<ChangeEvent>,
                      frontier: nat, w: Window) returns (commit: nat)
    requires Exact(log, p, cursor, through, reach, out) && frontier <= |log| && Usable(w)
    requires Pump(log, p, cursor, through, frontier, w).refusal
    ensures FirstRefused(log, p, reach, commit)
    ensures var r := Pump(log, p, cursor, through, frontier, w);
            && cursor <= reach <= commit < r.window <= |log|
            && r.cursor ==
               Min(FurthestEnd(Decoded(log, cursor, r.window), commit, cursor), OpenFrom(log, cursor, r.window))
            && ServedTo(log, p, r.cursor, r.through, commit, out + r.emitted)
            && out + r.emitted == Deliverable(log, p, commit)
  {
    hide Decoded, OpenFrom, Candidates, FurthestEnd, NothingSteppedOver, Ahead, Span, EventsAt, Clear;
    var end := End(w, cursor, frontier);
    var events := Decoded(log, cursor, end);
    var candidates := Candidates(p, through, events);
    commit := RefusedCommit(p, candidates);
    ExactIsClear(log, p, cursor, reach, end);
    CandidatesAreNew(log, p, cursor, through, reach, out, end);
    RefusedIsNew(log, p, reach, end, commit);
    RefusedIsFirst(log, p, reach, end);
    AheadIsDeliverable(log, p, reach, end, commit);
    NewDeliverable(log, p, reach, commit);
    FurthestEndBounds(events, commit, cursor);
    var owned := Ahead(candidates, commit);
    FurthestEndBounds(owned, |log|, through);
    CandidatesAre(p, 0, Span(log, reach, commit));
    SpanCommits(log, reach, commit);
    OpenFromBounds(log, cursor, end);
  }

  lemma {:induction false} AheadIsPart(events: seq<ChangeEvent>, commit: nat)
    ensures forall e :: e in Ahead(events, commit) ==> e in events
    decreases |events|
  {
    if events != [] {
      AheadIsPart(events[1..], commit);
    }
  }

  /** Nothing delivered so far came from a transaction still open where delivery stopped. */
  lemma DeliveredWasCommitted(log: Log, p: Policy, reach: nat, i: nat)
    requires reach <= |log| && OpenAt(log, i, reach)
    ensures forall e :: e in Deliverable(log, p, reach) ==> e.at != i
  {
    hide Decoded, Candidates;
    ReleasedWasRead(log, 0, reach);
    CandidatesAre(p, 0, Decoded(log, 0, reach));
  }

  /** Two interleaved transactions: the second commits, then the first, which the policy refuses. */
  const INTERLEAVED: Log := [Change(1, "held", 10), Change(2, "open", 20), Commit(2), Commit(1)]

  const ROW_HELD := ChangeEvent(1, 0, 3, "held", 10)
  const ROW_OPEN := ChangeEvent(2, 1, 2, "open", 20)

  lemma InterleavedDecodes()
    ensures Decoded(INTERLEAVED, 0, 4) == [ROW_OPEN, ROW_HELD] && Decoded(INTERLEAVED, 3, 4) == []
  {
  }

  lemma InterleavedIsClosed()
    ensures OpenFrom(INTERLEAVED, 0, 4) == 4 == OpenFrom(INTERLEAVED, 3, 4) && OpenAt(INTERLEAVED, 0, 3)
  {
    var log := INTERLEAVED;
    assert log[0].txn == 1 && log[1].txn == 2;
    assert Ends(log, 3, log[0].txn) && Ends(log, 2, log[1].txn);
    assert Finished(log, 0, 4) && Finished(log, 1, 4);
    assert OpenFrom(log, 2, 4) == 4 by {
      assert OpenFrom(log, 3, 4) == 4;
    }
  }

  lemma InterleavedCandidates(p: Policy)
    requires p.excluded == {} && p.snapshot.tables == {}
    ensures Candidates(p, 0, [ROW_OPEN, ROW_HELD]) == [ROW_OPEN, ROW_HELD]
    ensures Candidates(p, 3, []) == []
  {
    assert [ROW_OPEN, ROW_HELD][..1] == [ROW_OPEN];
    assert Candidates(p, 0, [ROW_OPEN]) == [ROW_OPEN];
  }

  lemma InterleavedPositions(p: Policy)
    requires p.refused == {"held"}
    ensures HasRefusal(p, [ROW_OPEN, ROW_HELD]) && RefusedCommit(p, [ROW_OPEN, ROW_HELD]) == 3
    ensures Ahead([ROW_OPEN, ROW_HELD], 3) == [ROW_OPEN]
    ensures FurthestEnd([ROW_OPEN, ROW_HELD], 3, 0) == 3 && FurthestEnd([ROW_OPEN], 4, 0) == 3
  {
    var both := [ROW_OPEN, ROW_HELD];
    assert both[1] in both && both[1..] == [ROW_HELD] && both[..1] == [ROW_OPEN];
    assert Ahead([ROW_HELD], 3) == [];
    assert FurthestEnd([ROW_OPEN], 3, 0) == 3;
  }

  /**
   The refusal rule does lose rows: the cursor lands on the earlier commit, past the refused
   transaction's own change, so widening the publication afterwards never brings it back.
   */
  lemma RefusedRowIsLost(w: Window)
    requires Usable(w) && Within(w, 0, 3)
    ensures var narrow, wide := Policy({}, NO_SNAPSHOT, {"held"}), Policy({}, NO_SNAPSHOT, {});
            var first := Pump(INTERLEAVED, narrow, 0, 0, 4, w);
            && first.refusal && first.cursor == 3 && OpenAt(INTERLEAVED, 0, 3)
            && Pump(INTERLEAVED, wide, first.cursor, first.through, 4, w).emitted == []
            && ROW_HELD in Deliverable(INTERLEAVED, wide, 4)
  {
    hide Decoded, OpenFrom, OpenAt, Candidates, RefusedCommit, Ahead, FurthestEnd;
    ReadsAll(w);
    InterleavedDecodes();
    InterleavedIsClosed();
    var narrow, wide := Policy({}, NO_SNAPSHOT, {"held"}), Policy({}, NO_SNAPSHOT, {});
    InterleavedCandidates(narrow);
    InterleavedCandidates(wide);
    InterleavedPositions(narrow);
    assert ROW_HELD == [ROW_OPEN, ROW_HELD][1];
  }

  lemma ReadsAll(w: Window)
    requires Usable(w) && Within(w, 0, 3)
    ensures End(w, 0, 4) == 4 && End(w, 3, 4) == 4
  {
    forall k: nat | k < 3
      ensures Within(w, 0, k)
    {
      assert w.start(k) < w.start(3);
    }
  }

  /**
   So does reconnecting: a consumer that has the first commit resumes at its end, past the change of the
   transaction that commits next, and is never sent it.
   */
  lemma ReconnectLosesRow(w: Window)
    requires Usable(w)
    ensures var wide := Policy({}, NO_SNAPSHOT, {});
            var call := Call(INTERLEAVED, wide, 4, w);
            && Callable(call) && Deliverable(INTERLEAVED, wide, 3) == [ROW_OPEN]
            && PumpAll(3, 0, [call]) == [] && ROW_HELD in Deliverable(INTERLEAVED, wide, 4)
  {
    hide OpenFrom, OpenAt, FurthestEnd;
    var wide := Policy({}, NO_SNAPSHOT, {});
    InterleavedDecodes();
    InterleavedCandidates(wide);
    FirstDecodes();
    hide Decoded;
    assert [ROW_OPEN][..0] == [];
    assert ROW_HELD == [ROW_OPEN, ROW_HELD][1];
    var call := Call(INTERLEAVED, wide, 4, w);
    NoCandidates(wide, 0);
    assert Pump(INTERLEAVED, wide, 3, 0, 4, w).emitted == [];
    assert [call][1..] == [];
  }

  lemma FirstDecodes()
    ensures Decoded(INTERLEAVED, 0, 3) == [ROW_OPEN]
  {
  }
}
