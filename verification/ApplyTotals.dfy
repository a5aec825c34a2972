/**
 What a run reports of itself, read off the run: how many events it landed and how many it took for
 re-deliveries, the furthest resume point among those landed, and the table of the last one.
 */
module ApplyTotals {
  import opened Feed
  import opened Destination
  import opened DuckSpec
  import opened Replay
  import opened DuckSinks
  import C = CursorPath
  import E = Evolution

  const NOTHING_YET := Totals(0, 0, 0, "")

  /** The database where a run meets its event i. */
  function MetAt(db: Database, flag: string, feed: seq<Event>, i: nat): Database
    requires i <= |feed|
  {
    Outcome(db, flag, feed[..i]).0
  }

  /** A streamed event at or below its table's cursor. */
  predicate AtOrBelow(db: Database, e: Event) {
    var c := Cursor(db, e.table);
    !e.change.BypassesCursor() && (e.commitLsn < c.commit || (e.commitLsn == c.commit && e.lsn <= c.record))
  }

  /** The positions of the events a run takes for re-deliveries. */
  function Redelivered(db: Database, flag: string, feed: seq<Event>): set<nat> {
    set i: nat | i < |feed| && AtOrBelow(MetAt(db, flag, feed, i), feed[i])
  }

  ghost predicate Lands(db: Database, flag: string, feed: seq<Event>, i: nat) {
    i < |feed| && i !in Redelivered(db, flag, feed)
  }

  /** The furthest resume point among the events landed, or zero. */
  ghost predicate Furthest(db: Database, flag: string, feed: seq<Event>, cursor: uint64) {
    && (forall i: nat :: Lands(db, flag, feed, i) ==> feed[i].commitEndLsn <= cursor)
    && (cursor == 0 || exists i: nat :: Lands(db, flag, feed, i) && feed[i].commitEndLsn == cursor)
  }

  ghost predicate LandsLast(db: Database, flag: string, feed: seq<Event>, i: nat) {
    Lands(db, flag, feed, i) && forall j: nat :: Lands(db, flag, feed, j) ==> j <= i
  }

  /** The table of the last event landed, or none. */
  ghost predicate LastLanded(db: Database, flag: string, feed: seq<Event>, table: string) {
    || (table == "" && forall i: nat :: !Lands(db, flag, feed, i))
    || exists i: nat :: LandsLast(db, flag, feed, i) && feed[i].table == table
  }

  ghost predicate Reports(db: Database, flag: string, feed: seq<Event>, totals: Totals) {
    && totals.skipped == |Redelivered(db, flag, feed)| && totals.applied + totals.skipped == |feed|
    && Furthest(db, flag, feed, totals.cursor) && LastLanded(db, flag, feed, totals.lastTable)
  }

  // --- one event more -------------------------------------------------------------------------

  /** The totals once one more event has been met. */
  function Counted(totals: Totals, db: Database, flag: string, e: Event): Totals {
    if Skips(db, e) then totals.(skipped := totals.skipped + 1)
    else if !Land(db, flag, e).ok then totals
    else
      Totals(totals.applied + 1, totals.skipped,
             if e.commitEndLsn > totals.cursor then e.commitEndLsn else totals.cursor, e.table)
  }

  lemma {:induction false} TallySnoc(db: Database, flag: string, feed: seq<Event>, e: Event, acc: Totals)
    requires Outcome(db, flag, feed).1
    ensures Tally(db, flag, feed + [e], acc) == Counted(Tally(db, flag, feed, acc), Outcome(db, flag, feed).0, flag, e)
    decreases |feed|
  {
    hide Land, Skips, Outcome;
    if feed == [] {
      C.OutcomeNil(db, flag);
      assert feed + [e] == [e] + [];
      TallyStep(db, flag, e, [], acc);
    } else {
      var head, rest := feed[0], feed[1..];
      assert feed == [head] + rest && feed + [e] == [head] + (rest + [e]);
      OutcomeCons(db, flag, head, rest);
      TallyStep(db, flag, head, rest, acc);
      TallyStep(db, flag, head, rest + [e], acc);
      if Skips(db, head) {
        TallySnoc(db, flag, rest, e, acc.(skipped := acc.skipped + 1));
      } else {
        TallySnoc(Final(db, Land(db, flag, head).states), flag, rest, e, Counted(acc, db, flag, head));
      }
    }
  }

  lemma SkipsIff(db: Database, e: Event)
    ensures Skips(db, e) <==> AtOrBelow(db, e)
  {
  }

  lemma RedeliveredSnoc(db: Database, flag: string, feed: seq<Event>, e: Event)
    ensures var before, after := Redelivered(db, flag, feed), Redelivered(db, flag, feed + [e]);
            after == if AtOrBelow(Outcome(db, flag, feed).0, e) then before + {|feed|} else before
  {
    hide Outcome, AtOrBelow;
    forall i: nat | i <= |feed|
      ensures (feed + [e])[..i] == feed[..i]
    {
    }
    assert feed[..|feed|] == feed;
  }

  lemma LandsSnoc(db: Database, flag: string, feed: seq<Event>, e: Event, i: nat)
    ensures Lands(db, flag, feed + [e], i) <==>
            Lands(db, flag, feed, i) || (i == |feed| && !AtOrBelow(Outcome(db, flag, feed).0, e))
  {
    hide Outcome, AtOrBelow, Redelivered;
    RedeliveredSnoc(db, flag, feed, e);
    RedeliveredWithin(db, flag, feed);
  }

  lemma RedeliveredWithin(db: Database, flag: string, feed: seq<Event>)
    ensures forall i :: i in Redelivered(db, flag, feed) ==> i < |feed|
  {
    hide Outcome, AtOrBelow;
  }

  lemma FurthestSnoc(db: Database, flag: string, feed: seq<Event>, e: Event, cursor: uint64)
    requires Furthest(db, flag, feed, cursor)
    ensures var next := if AtOrBelow(Outcome(db, flag, feed).0, e) || e.commitEndLsn <= cursor then cursor
                        else e.commitEndLsn;
            Furthest(db, flag, feed + [e], next)
  {
    hide Outcome, AtOrBelow, Lands;
    var after := feed + [e];
    forall i: nat
      ensures Lands(db, flag, after, i) <==>
              Lands(db, flag, feed, i) || (i == |feed| && !AtOrBelow(Outcome(db, flag, feed).0, e))
      ensures Lands(db, flag, feed, i) ==> i < |feed| && after[i] == feed[i]
    {
      LandsSnoc(db, flag, feed, e, i);
      LandsWithin(db, flag, feed, i);
    }
    if cursor != 0 && (AtOrBelow(Outcome(db, flag, feed).0, e) || e.commitEndLsn <= cursor) {
      var i: nat :| Lands(db, flag, feed, i) && feed[i].commitEndLsn == cursor;
      assert Lands(db, flag, after, i);
    } else if !AtOrBelow(Outcome(db, flag, feed).0, e) {
      assert Lands(db, flag, after, |feed|);
    }
  }

  lemma LandsWithin(db: Database, flag: string, feed: seq<Event>, i: nat)
    ensures Lands(db, flag, feed, i) ==> i < |feed|
  {
  }

  lemma LastSnoc(db: Database, flag: string, feed: seq<Event>, e: Event, table: string)
    requires LastLanded(db, flag, feed, table)
    ensures LastLanded(db, flag, feed + [e], if AtOrBelow(Outcome(db, flag, feed).0, e) then table else e.table)
  {
    hide Outcome, AtOrBelow, Lands;
    var after := feed + [e];
    forall i: nat
      ensures Lands(db, flag, after, i) <==>
              Lands(db, flag, feed, i) || (i == |feed| && !AtOrBelow(Outcome(db, flag, feed).0, e))
      ensures Lands(db, flag, feed, i) ==> i < |feed| && after[i] == feed[i]
    {
      LandsSnoc(db, flag, feed, e, i);
      LandsWithin(db, flag, feed, i);
    }
    if !AtOrBelow(Outcome(db, flag, feed).0, e) {
      assert LandsLast(db, flag, after, |feed|);
    } else if i: nat :| LandsLast(db, flag, feed, i) && feed[i].table == table {
      assert LandsLast(db, flag, after, i);
    }
  }

  /**
   A completed run reports every event of its feed as landed or as a re-delivery; the re-deliveries are the
   streamed events at or below their table's cursor where the run met them; the resume point is the furthest
   among those landed, and the table that of the last.
   */
  lemma {:induction false} TotalsAre(db: Database, flag: string, feed: seq<Event>)
    requires Outcome(db, flag, feed).1
    ensures Reports(db, flag, feed, Tally(db, flag, feed, NOTHING_YET))
    decreases |feed|
  {
    if feed == [] {
      hide Outcome;
    } else {
      hide Outcome, Step, Land, Tally, Redelivered, Furthest, LastLanded, AtOrBelow, Skips;
      var init, e := feed[..|feed| - 1], feed[|feed| - 1];
      assert feed == init + [e];
      C.OutcomeSnoc(db, flag, init, e);
      TotalsAre(db, flag, init);
      var soFar, at := Tally(db, flag, init, NOTHING_YET), Outcome(db, flag, init).0;
      TallySnoc(db, flag, init, e, NOTHING_YET);
      SkipsIff(at, e);
      RedeliveredSnoc(db, flag, init, e);
      RedeliveredWithin(db, flag, init);
      FurthestSnoc(db, flag, init, e, soFar.cursor);
      LastSnoc(db, flag, init, e, soFar.lastTable);
      StepIs(at, flag, e);
    }
  }

  /** A run that stops reports what it did before the event that was refused. */
  lemma {:induction false} StoppedTotals(db: Database, flag: string, feed: seq<Event>) returns (n: nat)
    requires !Outcome(db, flag, feed).1
    ensures n < |feed| && Outcome(db, flag, feed[..n]).1 && !Outcome(db, flag, feed[..n + 1]).1
    ensures Reports(db, flag, feed[..n], Tally(db, flag, feed, NOTHING_YET))
    decreases |feed|
  {
    hide Outcome, Step, Land, Tally, Reports, Skips;
    C.OutcomeNil(db, flag);
    var init, e := feed[..|feed| - 1], feed[|feed| - 1];
    assert feed == init + [e];
    C.OutcomeSnoc(db, flag, init, e);
    if Outcome(db, flag, init).1 {
      n := |init|;
      assert feed[..n] == init && feed[..n + 1] == feed;
      TotalsAre(db, flag, init);
      TallySnoc(db, flag, init, e, NOTHING_YET);
      RefusedCountsNothing(Outcome(db, flag, init).0, flag, e, Tally(db, flag, init, NOTHING_YET));
    } else {
      n := StoppedTotals(db, flag, init);
      assert feed[..n] == init[..n] && feed[..n + 1] == init[..n + 1];
      TallyStops(db, flag, init, e, NOTHING_YET);
    }
  }

  lemma RefusedCountsNothing(db: Database, flag: string, e: Event, totals: Totals)
    requires !Step(db, flag, e).ok
    ensures Counted(totals, db, flag, e) == totals
  {
    hide Land;
  }

  lemma {:induction false} TallyStops(db: Database, flag: string, feed: seq<Event>, e: Event, acc: Totals)
    requires !Outcome(db, flag, feed).1
    ensures Tally(db, flag, feed + [e], acc) == Tally(db, flag, feed, acc)
    decreases |feed|
  {
    hide Land, Skips, Outcome, Step;
    C.OutcomeNil(db, flag);
    var head, rest := feed[0], feed[1..];
    assert feed == [head] + rest && feed + [e] == [head] + (rest + [e]);
    OutcomeCons(db, flag, head, rest);
    TallyStep(db, flag, head, rest, acc);
    TallyStep(db, flag, head, rest + [e], acc);
    StepIs(db, flag, head);
    if Skips(db, head) {
      TallyStops(db, flag, rest, e, acc.(skipped := acc.skipped + 1));
    } else if Land(db, flag, head).ok {
      TallyStops(Final(db, Land(db, flag, head).states), flag, rest, e, Counted(acc, db, flag, head));
    }
  }

  lemma StepIs(db: Database, flag: string, e: Event)
    ensures Step(db, flag, e) == if Skips(db, e) then Effect([], true) else Land(db, flag, e)
  {
  }

  // --- a log delivered once, and again ----------------------------------------------------------

  /** A log in order into a fresh destination: nothing is taken for a re-delivery. */
  lemma NothingIsRedelivered(db: Database, flag: string, log: seq<Event>)
    requires C.Ordered(log) && db.checkpoint == map[] && Outcome(db, flag, log).1
    ensures var totals := Tally(db, flag, log, NOTHING_YET); totals.skipped == 0 && totals.applied == |log|
  {
    TotalsAre(db, flag, log);
    hide Outcome, Tally, C.Ordered, C.CursorsKnown, Furthest, LastLanded;
    forall i: nat | i < |log|
      ensures i !in Redelivered(db, flag, log)
    {
      C.InOrderNothingIsSkipped(db, flag, log, i);
      PrefixLands(db, flag, log, i);
      C.NewIsNotSkipped(Outcome(db, flag, log[..i]).0, log, i, i);
      SkipsIff(Outcome(db, flag, log[..i]).0, log[i]);
    }
    assert Redelivered(db, flag, log) == {};
  }

  lemma {:induction false} PrefixLands(db: Database, flag: string, feed: seq<Event>, n: nat)
    requires n <= |feed| && Outcome(db, flag, feed).1
    ensures Outcome(db, flag, feed[..n]).1
    decreases |feed| - n
  {
    hide Outcome, Step;
    if n == |feed| {
      assert feed[..n] == feed;
    } else {
      PrefixLands(db, flag, feed, n + 1);
      assert feed[..n + 1] == feed[..n] + [feed[n]];
      C.OutcomeSnoc(db, flag, feed[..n], feed[n]);
    }
  }

  lemma {:induction false} LandedIsCovered(db: Database, flag: string, feed: seq<Event>)
    requires E.AllEvolve(feed) && Outcome(db, flag, feed).1
    ensures E.Covers(Outcome(db, flag, feed).0, feed)
    decreases |feed|
  {
    hide Outcome, Step, E.Evolves;
    if feed != [] {
      var init, e := feed[..|feed| - 1], feed[|feed| - 1];
      assert feed == init + [e];
      C.OutcomeSnoc(db, flag, init, e);
      LandedIsCovered(db, flag, init);
      E.NextCovers(Outcome(db, flag, init).0, flag, e, init);
    }
  }

  lemma {:induction false} CoveredTallies(db: Database, flag: string, again: seq<Event>, acc: Totals)
    requires E.Covers(db, again) && forall e :: e in again ==> !e.change.BypassesCursor()
    ensures Outcome(db, flag, again) == (db, true)
    ensures Tally(db, flag, again, acc) == acc.(skipped := acc.skipped + |again|)
    decreases |again|
  {
    hide Outcome, Skips, Land;
    if again == [] {
      C.OutcomeNil(db, flag);
    } else {
      assert again == [again[0]] + again[1..] && again[0] in again;
      OutcomeCons(db, flag, again[0], again[1..]);
      StepIs(db, flag, again[0]);
      TallyStep(db, flag, again[0], again[1..], acc);
      CoveredTallies(db, flag, again[1..], acc.(skipped := acc.skipped + 1));
    }
  }

  /** Streamed events of a feed that has landed, delivered again in any order: none lands, and nothing changes. */
  lemma EverythingIsRedelivered(db: Database, flag: string, feed: seq<Event>, again: seq<Event>)
    requires E.AllEvolve(feed) && Outcome(db, flag, feed).1
    requires forall e :: e in again ==> e in feed && !e.change.BypassesCursor()
    ensures var landed := Outcome(db, flag, feed).0;
            && Outcome(landed, flag, again) == (landed, true)
            && Tally(landed, flag, again, NOTHING_YET) == Totals(0, |again|, 0, "")
  {
    hide Outcome, Tally;
    LandedIsCovered(db, flag, feed);
    CoveredTallies(Outcome(db, flag, feed).0, flag, again, NOTHING_YET);
  }
}
