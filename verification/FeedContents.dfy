/**
 What a consumer is sent, read off the log: the committed changes, in commit order, less those of an
 excluded table and those a snapshot already held.
 */
module FeedContents {
  import opened FeedStream
  import opened FeedServer

  /** The log says this happened: a schema change, or a change whose transaction next ends in that commit. */
  ghost predicate Happened(log: Log, e: ChangeEvent) {
    && e.at < |log|
    && match log[e.at]
       case Ddl(table, shape) => e == ChangeEvent(0, e.at, e.at, table, shape)
       case Change(txn, table, row) =>
         && e == ChangeEvent(txn, e.at, e.commit, table, row)
         && e.at < e.commit < |log| && log[e.commit] == Commit(txn)
         && forall j: nat | e.at < j < e.commit :: log[j] != Commit(txn) && log[j] != Abort(txn)
       case _ => false
  }

  /** The publication excludes the table, or the snapshot wrote it and contains the transaction. */
  predicate Withheld(p: Policy, e: ChangeEvent) {
    || e.table in p.excluded
    || (e.txn != 0 && e.table in p.snapshot.tables && e.txn in p.snapshot.txns)
  }

  /** In commit order, the changes of one commit in the order they were written, and none twice. */
  ghost predicate InOrder(events: seq<ChangeEvent>) {
    forall i, j :: 0 <= i < j < |events| ==>
      events[i].commit < events[j].commit || (events[i].commit == events[j].commit && events[i].at < events[j].at)
  }

  // --- one record -----------------------------------------------------------------------------

  lemma UnfinishedIff(log: Log, i: nat, c: nat)
    requires i < c < |log| && log[i].Change?
    ensures !Finished(log, i, c) <==>
            forall j: nat | i < j < c :: log[j] != Commit(log[i].txn) && log[j] != Abort(log[i].txn)
  {
    if !Finished(log, i, c) {
      forall j: nat | i < j < c
        ensures log[j] != Commit(log[i].txn) && log[j] != Abort(log[i].txn)
      {
        assert !Ends(log, j, log[i].txn);
      }
    }
  }

  lemma EventsAtIff(log: Log, c: nat, e: ChangeEvent)
    requires c < |log|
    ensures e in EventsAt(log, 0, c) <==> Happened(log, e) && e.commit == c
  {
    hide Pending, Finished;
    match log[c] {
      case Commit(txn) =>
        PendingAreChanges(log, 0, c, txn);
        PendingExact(log, 0, c, txn);
        var q := Pending(log, 0, c, txn);
        if e.at < c && log[e.at].Change? {
          UnfinishedIff(log, e.at, c);
        }
        if e in EventsAt(log, 0, c) {
          var k :| 0 <= k < |q| && EventsAt(log, 0, c)[k] == e;
          assert e.at == q[k] && q[k] in q;
        }
        if Happened(log, e) && e.commit == c {
          assert e.at in q;
          var k :| 0 <= k < |q| && q[k] == e.at;
          assert EventsAt(log, 0, c)[k] == e;
        }
      case Ddl(table, shape) =>
      case _ =>
    }
  }

  lemma EventsAtInOrder(log: Log, from: nat, c: nat)
    requires c < |log|
    ensures InOrder(EventsAt(log, from, c))
  {
    if log[c].Commit? {
      PendingInOrder(log, from, c, log[c].txn);
    }
  }

  // --- the whole log --------------------------------------------------------------------------

  lemma {:induction false} DecodedIff(log: Log, n: nat, e: ChangeEvent)
    requires n <= |log|
    ensures e in Decoded(log, 0, n) <==> Happened(log, e) && e.commit < n
    decreases n
  {
    hide EventsAt, Happened;
    if n > 0 {
      DecodedIff(log, n - 1, e);
      EventsAtIff(log, n - 1, e);
    }
  }

  lemma {:induction false} DecodedInOrder(log: Log, from: nat, n: nat)
    requires n <= |log|
    ensures InOrder(Decoded(log, from, n))
    decreases n
  {
    hide EventsAt;
    if n > from {
      DecodedInOrder(log, from, n - 1);
      EventsAtInOrder(log, from, n - 1);
      EventsAtCommit(log, from, n - 1);
      DecodedCommits(log, from, n - 1);
      var a, b := Decoded(log, from, n - 1), EventsAt(log, from, n - 1);
      var all := a + b;
      forall i, j | 0 <= i < j < |all|
        ensures all[i].commit < all[j].commit || (all[i].commit == all[j].commit && all[i].at < all[j].at)
      {
        assert i < |a| ==> a[i] in a;
        assert j >= |a| ==> b[j - |a|] in b;
      }
    }
  }

  lemma {:induction false} CandidatesInOrder(p: Policy, through: nat, events: seq<ChangeEvent>)
    requires InOrder(events)
    ensures InOrder(Candidates(p, through, events))
    decreases |events|
  {
    if events != [] {
      var init, last := events[..|events| - 1], events[|events| - 1];
      CandidatesInOrder(p, through, init);
      CandidatesAre(p, through, init);
      var r := Candidates(p, through, init);
      forall i | 0 <= i < |r|
        ensures r[i].commit < last.commit || (r[i].commit == last.commit && r[i].at < last.at)
      {
        assert r[i] in init;
        var k :| 0 <= k < |init| && init[k] == r[i];
        assert events[k] == r[i];
      }
    }
  }

  /** Deliverable is exactly what happened below a position and is not withheld, in order and each once. */
  lemma DeliverableIff(log: Log, p: Policy, n: nat, e: ChangeEvent)
    requires n <= |log|
    ensures e in Deliverable(log, p, n) <==> Happened(log, e) && e.commit < n && !Withheld(p, e)
    ensures InOrder(Deliverable(log, p, n))
  {
    hide Decoded, Candidates, Happened, InOrder;
    CandidatesAre(p, 0, Decoded(log, 0, n));
    DecodedIff(log, n, e);
    DecodedInOrder(log, 0, n);
    CandidatesInOrder(p, 0, Decoded(log, 0, n));
  }

  /**
   In every interleaving, until a refusal, the consumer has been sent a change exactly when it happened
   below the position served to and is not withheld: nothing of an excluded table, nothing a snapshot
   already held, and everything else, another table's changes of the same transaction and every schema
   change included. It was sent in commit order, and nothing twice.
   */
  lemma SentIff(run: seq<State>, p: Policy, w: Window, e: ChangeEvent)
    requires Usable(w) && IsRun(run, p, w)
    requires run[|run| - 1].server != Closed(false)
    ensures var s := run[|run| - 1];
            && (e in s.out <==> Happened(s.log, e) && e.commit < s.reach && !Withheld(p, e))
            && InOrder(s.out)
  {
    var s := run[|run| - 1];
    hide IsRun, Deliverable, Happened, InOrder;
    ServedExactly(run, p, w);
    DeliverableIff(s.log, p, s.reach, e);
  }

  // --- after a refusal --------------------------------------------------------------------------

  /** The consumer has been sent what is deliverable ahead of a commit with a change to be refused. */
  ghost predicate RefusedAt(s: State, p: Policy, commit: nat) {
    && commit < |s.log| && s.out == Deliverable(s.log, p, commit) && !HasRefusal(p, s.out)
    && HasRefusal(p, Candidates(p, 0, EventsAt(s.log, 0, commit)))
  }

  lemma RefusedAsLogGrows(s: State, s': State, p: Policy, r: Record, commit: nat)
    requires RefusedAt(s, p, commit) && s' == s.(log := s.log + [r])
    ensures RefusedAt(s', p, commit)
  {
    hide EventsAt, Decoded, Candidates, HasRefusal;
    DecodedPrefix(s.log, [r], 0, commit);
    EventsAtPrefix(s.log, [r], 0, commit);
  }

  lemma {:induction false} NoRefusalYet(log: Log, p: Policy, lo: nat, hi: nat)
    requires lo <= hi <= |log| && !HasRefusal(p, Deliverable(log, p, lo))
    requires forall c: nat | lo <= c < hi :: !HasRefusal(p, Candidates(p, 0, EventsAt(log, 0, c)))
    ensures !HasRefusal(p, Deliverable(log, p, hi))
    decreases hi
  {
    hide EventsAt, Candidates;
    if lo < hi {
      NoRefusalYet(log, p, lo, hi - 1);
      CandidatesConcat(p, 0, Decoded(log, 0, hi - 1), EventsAt(log, 0, hi - 1));
    }
  }

  lemma RefusingPump(s: State, s': State, p: Policy, w: Window) returns (commit: nat)
    requires Usable(w) && Invariant(s, p, w) && ServerStep(s, s', p, w) && s'.server == Closed(false)
    requires s.server != Closed(false)
    ensures RefusedAt(s', p, commit)
  {
    hide Pump, Deliverable, OpenFrom, EventsAt, Candidates, HasRefusal, NothingSteppedOver, Usable;
    commit := RefusalServes(s.log, p, s.cursor, s.through, s.reach, s.out, s.flushed, w);
    NoRefusalYet(s.log, p, s.reach, commit);
  }

  lemma {:induction false} RefusedRun(run: seq<State>, p: Policy, w: Window) returns (commit: nat)
    requires Usable(w) && IsRun(run, p, w) && run[|run| - 1].server == Closed(false)
    ensures RefusedAt(run[|run| - 1], p, commit)
    decreases |run|
  {
    hide Invariant, RefusedAt, Usable;
    var k := |run| - 2;
    assert k >= 0;
    var before, s, s' := run[..|run| - 1], run[k], run[k + 1];
    assert IsRun(before, p, w);
    assert WriterStep(s, s') || ServerStep(s, s', p, w);
    if s.server == Closed(false) {
      commit := RefusedRun(before, p, w);
      RefusedStays(s, s', p, w, commit);
    } else {
      InvariantHolds(before, p, w);
      commit := RefusingPump(s, s', p, w);
    }
  }

  lemma RefusedStays(s: State, s': State, p: Policy, w: Window, commit: nat)
    requires Usable(w) && RefusedAt(s, p, commit) && s.server == Closed(false)
    requires WriterStep(s, s') || ServerStep(s, s', p, w)
    ensures RefusedAt(s', p, commit)
  {
    hide Deliverable, EventsAt, Candidates, HasRefusal, Usable;
    if s'.log != s.log {
      var r: Record :| s' == s.(log := s.log + [r]);
      RefusedAsLogGrows(s, s', p, r, commit);
    }
  }

  /**
   A serving loop that closed on a refusal has sent exactly what happened ahead of some commit and is not
   withheld, in order and each once. None of it is of a table to be refused, and that commit has a change
   that is, and is not withheld.
   */
  lemma RefusalSentIff(run: seq<State>, p: Policy, w: Window) returns (commit: nat, refused: ChangeEvent)
    requires Usable(w) && IsRun(run, p, w) && run[|run| - 1].server == Closed(false)
    ensures var s := run[|run| - 1];
            && (forall e :: e in s.out <==> Happened(s.log, e) && e.commit < commit && !Withheld(p, e))
            && InOrder(s.out) && (forall e :: e in s.out ==> e.table !in p.refused)
            && Happened(s.log, refused) && refused.commit == commit && !Withheld(p, refused)
            && refused.table in p.refused
  {
    var s := run[|run| - 1];
    hide IsRun, Deliverable, Happened, InOrder, EventsAt, Candidates;
    commit := RefusedRun(run, p, w);
    forall e
      ensures e in s.out <==> Happened(s.log, e) && e.commit < commit && !Withheld(p, e)
    {
      DeliverableIff(s.log, p, commit, e);
    }
    refused :| refused in Candidates(p, 0, EventsAt(s.log, 0, commit)) && refused.table in p.refused;
    DeliverableIff(s.log, p, commit, refused);
    CandidatesAre(p, 0, EventsAt(s.log, 0, commit));
    EventsAtIff(s.log, commit, refused);
  }

  // --- how far a pump moves -----------------------------------------------------------------------

  /** A change the pump decoded and, after a refusal, committed ahead of the refused one. */
  ghost predicate Settled(log: Log, p: Policy, cursor: nat, through: nat, r: Pumped, e: ChangeEvent)
    requires r.window <= |log|
  {
    && e in Decoded(log, cursor, r.window)
    && (r.refusal ==>
          forall f :: f in Candidates(p, through, Decoded(log, cursor, r.window)) && f.table in p.refused ==>
            e.commit < f.commit)
  }

  lemma {:induction false} RefusedCommitIsLeast(p: Policy, events: seq<ChangeEvent>)
    requires HasRefusal(p, events) && InOrder(events)
    ensures forall f :: f in events && f.table in p.refused ==> RefusedCommit(p, events) <= f.commit
    decreases |events|
  {
    if events[0].table !in p.refused {
      assert forall f :: f in events && f.table in p.refused ==> f in events[1..];
      RefusedCommitIsLeast(p, events[1..]);
    } else {
      forall f | f in events
        ensures events[0].commit <= f.commit
      {
        var k :| 0 <= k < |events| && events[k] == f;
      }
    }
  }

  /**
   A pump moves its cursor past every commit it decoded, up to one it must refuse, and stops short of one
   only at a change still open where it stopped reading; it moves no further than that, and steps over
   nothing open.
   */
  lemma PumpMoves(log: Log, p: Policy, cursor: nat, through: nat, frontier: nat, w: Window)
    requires cursor < frontier <= |log| && Usable(w)
    ensures var r := Pump(log, p, cursor, through, frontier, w);
            && cursor <= r.cursor <= r.window <= |log|
            && (forall i: nat :: cursor <= i < r.cursor ==> !OpenAt(log, i, r.window))
            && (forall e :: Settled(log, p, cursor, through, r, e) ==>
                  e.commit < r.cursor || OpenAt(log, r.cursor, r.window))
            && (|| r.cursor == cursor || OpenAt(log, r.cursor, r.window)
                || exists e :: Settled(log, p, cursor, through, r, e) && e.commit + 1 == r.cursor)
  {
    hide Decoded, OpenFrom, Candidates, FurthestEnd, Ahead, Usable, InOrder;
    var r, end := Pump(log, p, cursor, through, frontier, w), End(w, cursor, frontier);
    var events := Decoded(log, cursor, end);
    var candidates := Candidates(p, through, events);
    var bound := if r.refusal then RefusedCommit(p, candidates) else |log|;
    DecodedCommits(log, cursor, end);
    OpenFromStops(log, cursor, end);
    FurthestEndBounds(events, bound, cursor);
    DecodedInOrder(log, cursor, end);
    CandidatesInOrder(p, through, events);
    if r.refusal {
      RefusedCommitIsLeast(p, candidates);
    }
    forall e
      ensures Settled(log, p, cursor, through, r, e) <==> e in events && e.commit < bound
    {
    }
  }
}
