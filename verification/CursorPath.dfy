/**
 The resume cursor in front of the ordering guard: for a log delivered in order, with any amount of
 re-delivery, it changes nothing but the work done.
 */
module CursorPath {
  import opened Feed
  import opened Destination
  import opened DuckSpec
  import opened Replay

  /** Every event put through the guard, with no cursor test in front of it. */
  function GuardOnly(db: Database, flag: string, feed: seq<Event>): (Database, bool) {
    if feed == [] then (db, true)
    else
      var soFar := GuardOnly(db, flag, feed[..|feed| - 1]);
      if !soFar.1 then soFar
      else
        var land := Land(soFar.0, flag, feed[|feed| - 1]);
        (Final(soFar.0, land.states), land.ok)
  }

  function Position(e: Event): Stamp {
    Stamp(e.commitLsn, e.lsn)
  }

  /** A streamed event carries a position of its own: after zero, and one SQL compares as it is. */
  predicate Positioned(e: Event) {
    !e.change.BypassesCursor() ==>
      && Above(Position(e), Stamp(0, 0))
      && e.commitLsn < 0x8000_0000_0000_0000
      && e.lsn < 0x8000_0000_0000_0000
  }

  predicate Follows(e: Event, e': Event) {
    e.table == e'.table && !e.change.BypassesCursor() && !e'.change.BypassesCursor()
    ==> Above(Position(e'), Position(e))
  }

  /** The log of the source: per table, streamed positions strictly increase. */
  ghost predicate Ordered(log: seq<Event>) {
    && (forall i :: 0 <= i < |log| ==> Positioned(log[i]))
    && (forall i, j :: 0 <= i < j < |log| ==> Follows(log[i], log[j]))
  }

  /** How many events of the log a delivery has reached. */
  function Reached(d: seq<nat>): nat {
    if d == [] then 0
    else
      var before := Reached(d[..|d| - 1]);
      if d[|d| - 1] < before then before else d[|d| - 1] + 1
  }

  /** At-least-once: each event delivered is the next new one, or one delivered before. */
  predicate Delivery(d: seq<nat>, log: seq<Event>) {
    d == [] || (Delivery(d[..|d| - 1], log) && d[|d| - 1] < |log| && d[|d| - 1] <= Reached(d[..|d| - 1]))
  }

  function Delivered(d: seq<nat>, log: seq<Event>): (feed: seq<Event>)
    requires Delivery(d, log)
    ensures |feed| == |d|
  {
    if d == [] then [] else Delivered(d[..|d| - 1], log) + [log[d[|d| - 1]]]
  }

  // ---------------------------------------------------------------------------------------------

  lemma {:induction false} OutcomeSnoc(db: Database, flag: string, feed: seq<Event>, e: Event)
    ensures var soFar := Outcome(db, flag, feed);
            var step := Step(soFar.0, flag, e);
            Outcome(db, flag, feed + [e]) ==
            if soFar.1 then (Final(soFar.0, step.states), step.ok) else soFar
    decreases |feed|
  {
    hide Step, Outcome;
    if feed == [] {
      assert feed + [e] == [e] + [];
      OutcomeCons(db, flag, e, []);
      OutcomeNil(db, flag);
      OutcomeNil(Final(db, Step(db, flag, e).states), flag);
    } else {
      var head, rest := feed[0], feed[1..];
      OutcomeCons(db, flag, head, rest);
      OutcomeCons(db, flag, head, rest + [e]);
      assert feed == [head] + rest && feed + [e] == [head] + (rest + [e]);
      OutcomeSnoc(Final(db, Step(db, flag, head).states), flag, rest, e);
    }
  }

  lemma OutcomeNil(db: Database, flag: string)
    ensures Outcome(db, flag, []) == (db, true)
  {
  }

  /** The cursor of a table is the position of a streamed event already landed. */
  ghost predicate CursorFrom(db: Database, log: seq<Event>, n: nat, t: string, i: int)
    requires n <= |log| && t in db.checkpoint
  {
    0 <= i < n && log[i].table == t && !log[i].change.BypassesCursor() && db.checkpoint[t] == StampOf(log[i])
  }

  ghost predicate CursorsKnown(db: Database, log: seq<Event>, n: nat)
    requires n <= |log|
  {
    forall t :: t in db.checkpoint ==> exists i :: CursorFrom(db, log, n, t, i)
  }

  /** Every event reached so far is settled, and each cursor is the position of one of them. */
  ghost predicate Tracks(db: Database, log: seq<Event>, n: nat)
    requires n <= |log|
  {
    && (forall i :: 0 <= i < n ==> Settled(db, log[i]))
    && CursorsKnown(db, log, n)
  }

  /** An event past every landed one is never taken for a re-delivery. */
  lemma NewIsNotSkipped(db: Database, log: seq<Event>, n: nat, j: nat)
    requires Ordered(log) && n <= j < |log| && CursorsKnown(db, log, n)
    ensures !Skips(db, log[j])
  {
  }

  /** The cursor only ever skips events whose key already holds a row at least as new. */
  lemma SkippedIsSettled(db: Database, log: seq<Event>, n: nat, j: nat)
    requires Ordered(log) && n <= |log| && j < |log| && Tracks(db, log, n)
    ensures Skips(db, log[j]) ==> j < n && Settled(db, log[j])
  {
  }

  lemma {:induction false} GrowthKeepsCheckpoint(db: Database, table: string, missing: seq<ColumnSpec>)
    requires table in db.tables
    ensures Final(db, Growth(db, table, missing)).checkpoint == db.checkpoint
    decreases |missing|
  {
    if missing != [] {
      GrowthKeepsCheckpoint(ExecIn(db, table, Add(missing[0])), table, missing[1..]);
    }
  }

  lemma EnsureKeepsCheckpoint(db: Database, flag: string, table: string, columns: seq<ColumnSpec>)
    ensures Final(db, Ensure(db, flag, table, columns).states).checkpoint == db.checkpoint
  {
    hide Declarable, Growth;
    var made := Create(db, table, columns, KeyFor(db, flag, table));
    var got := made.tables[table].columns;
    if got <= columns {
      GrowthKeepsCheckpoint(made, table, columns[|got|..]);
    }
  }

  /** Applying an event leaves every cursor alone; recording its position is a statement of its own. */
  lemma ApplyKeepsCheckpoint(db: Database, flag: string, e: Event)
    ensures Final(db, Apply(db, flag, e).states).checkpoint == db.checkpoint
  {
    hide Ensure, Exec, PlanFor, NamesRow, InferredColumns;
    match e.change {
      case CreateTable(columns) => EnsureKeepsCheckpoint(db, flag, e.table, DuckColumns(columns));
      case DropTable =>
      case AddColumn(columns, _) => EnsureKeepsCheckpoint(db, flag, e.table, DuckColumns(columns));
      case RenameColumn(columns, _, _) => EnsureKeepsCheckpoint(db, flag, e.table, DuckColumns(columns));
      case AlterColumnType(columns, _, _, _) => EnsureKeepsCheckpoint(db, flag, e.table, DuckColumns(columns));
      case _ => EnsureKeepsCheckpoint(db, flag, e.table, InferredColumns(e.change.Image()));
    }
  }

  /** Landing the next event keeps each cursor the position of a landed one. */
  lemma NextCursorsKnown(db: Database, flag: string, log: seq<Event>, n: nat)
    requires n < |log| && CursorsKnown(db, log, n) && Land(db, flag, log[n]).ok
    ensures CursorsKnown(Final(db, Land(db, flag, log[n]).states), log, n + 1)
  {
    hide Apply;
    var e := log[n];
    ApplyKeepsCheckpoint(db, flag, e);
    var next, m := Final(db, Land(db, flag, e).states), n + 1;
    forall t | t in next.checkpoint
      ensures exists i :: CursorFrom(next, log, m, t, i)
    {
      if t in db.checkpoint && next.checkpoint[t] == db.checkpoint[t] {
        var i :| CursorFrom(db, log, n, t, i);
        assert CursorFrom(next, log, m, t, i);
      } else {
        assert CursorFrom(next, log, m, t, n);
      }
    }
  }

  /** Landing the next event of the log extends what the database tracks by that event. */
  lemma NextTracks(shapes: Shapes, db: Database, flag: string, log: seq<Event>, n: nat)
    requires Replayable(shapes, log) && n < |log| && Tracks(db, log, n)
    requires !Skips(db, log[n]) && Land(db, flag, log[n]).ok
    ensures Tracks(Final(db, Land(db, flag, log[n]).states), log, n + 1)
  {
    hide Settled, Land, Skips;
    var e := log[n];
    assert Fits(shapes, e);
    var next := Final(db, Land(db, flag, e).states);
    LandSettles(db, flag, e);
    forall i | 0 <= i < n
      ensures Settled(next, log[i])
    {
      assert Fits(shapes, log[i]);
      LandKeepsSettled(shapes, db, flag, e, log[i]);
    }
    NextCursorsKnown(db, flag, log, n);
  }

  lemma LandKeepsSettled(shapes: Shapes, db: Database, flag: string, e: Event, a: Event)
    requires Fits(shapes, e) && Fits(shapes, a) && !Skips(db, e)
    requires Settled(db, a)
    ensures Settled(Final(db, Land(db, flag, e).states), a)
  {
    hide Settled, Land, Skips, Fits;
    var states := Land(db, flag, e).states;
    assert Step(db, flag, e) == Land(db, flag, e);
    if states != [] {
      StepKeepsAbsorbed(shapes, db, flag, e, Final(db, states), a);
    }
  }

  /** What holds after every delivery: three ways of running it agree. */
  ghost predicate Agree(db: Database, flag: string, log: seq<Event>, d: seq<nat>)
    requires Delivery(d, log) && Reached(d) <= |log|
  {
    && Outcome(db, flag, Delivered(d, log)) == GuardOnly(db, flag, Delivered(d, log))
    && Outcome(db, flag, Delivered(d, log)) == Outcome(db, flag, log[..Reached(d)])
    && (Outcome(db, flag, Delivered(d, log)).1 ==> Tracks(Outcome(db, flag, Delivered(d, log)).0, log, Reached(d)))
  }

  lemma {:induction false} ReachedInLog(d: seq<nat>, log: seq<Event>)
    requires Delivery(d, log)
    ensures Reached(d) <= |log|
    decreases |d|
  {
    if d != [] {
      ReachedInLog(d[..|d| - 1], log);
    }
  }

  /**
   The cursor is a pure fast path. For a log whose streamed positions strictly increase per table,
   under any re-delivery of what was delivered before, the loop ends exactly as if every event had
   gone through the guard, and exactly as if nothing had been delivered twice.
   */
  lemma {:induction false} PureFastPath(shapes: Shapes, db: Database, flag: string, log: seq<Event>, d: seq<nat>)
    requires Replayable(shapes, log) && Ordered(log) && Delivery(d, log)
    requires db.checkpoint == map[]
    ensures Reached(d) <= |log| && Agree(db, flag, log, d)
    decreases |d|
  {
    hide *;
    ReachedInLog(d, log);
    if d == [] {
      AgreeAtStart(db, flag, log);
    } else {
      var d' := Before(d, log);
      PureFastPath(shapes, db, flag, log, d');
      AgreeAfterOne(shapes, db, flag, log, d);
    }
  }

  lemma Before(d: seq<nat>, log: seq<Event>) returns (d': seq<nat>)
    requires d != [] && Delivery(d, log)
    ensures d' == d[..|d| - 1] && Delivery(d', log)
  {
    d' := d[..|d| - 1];
  }

  lemma AgreeAtStart(db: Database, flag: string, log: seq<Event>)
    requires db.checkpoint == map[]
    ensures Delivery([], log) && Reached([]) <= |log| && Agree(db, flag, log, [])
  {
  }

  lemma AgreeAfterOne(shapes: Shapes, db: Database, flag: string, log: seq<Event>, d: seq<nat>)
    requires Replayable(shapes, log) && Ordered(log) && d != [] && Delivery(d, log)
    requires var d' := d[..|d| - 1]; Reached(d') <= |log| && Agree(db, flag, log, d')
    ensures Reached(d) <= |log| && Agree(db, flag, log, d)
  {
    hide Outcome, Ordered, Replayable, Tracks, Step, Land;
    var d', j := d[..|d| - 1], d[|d| - 1];
    var feed := Delivered(d', log);
    OutcomeSnoc(db, flag, feed, log[j]);
    assert (feed + [log[j]])[..|feed|] == feed;
    var soFar := Outcome(db, flag, feed);
    if j == Reached(d') {
      OutcomeSnoc(db, flag, log[..j], log[j]);
      assert log[..j + 1] == log[..j] + [log[j]];
      if soFar.1 {
        NewEvent(shapes, soFar.0, flag, log, j);
      }
    } else if soFar.1 {
      OldEvent(shapes, soFar.0, flag, log, Reached(d'), j);
    }
  }

  lemma NewEvent(shapes: Shapes, db: Database, flag: string, log: seq<Event>, j: nat)
    requires Replayable(shapes, log) && Ordered(log) && j < |log| && Tracks(db, log, j)
    ensures Step(db, flag, log[j]) == Land(db, flag, log[j])
    ensures Land(db, flag, log[j]).ok ==> Tracks(Final(db, Land(db, flag, log[j]).states), log, j + 1)
  {
    hide Land, Tracks, Skips;
    SkippedIsSettled(db, log, j, j);
    assert !Skips(db, log[j]);
    assert Step(db, flag, log[j]) == Land(db, flag, log[j]);
    if Land(db, flag, log[j]).ok {
      NextTracks(shapes, db, flag, log, j);
    }
  }

  lemma OldEvent(shapes: Shapes, db: Database, flag: string, log: seq<Event>, n: nat, j: nat)
    requires Replayable(shapes, log) && j < n <= |log| && Tracks(db, log, n)
    ensures Still(db, Step(db, flag, log[j])) && Still(db, Land(db, flag, log[j]))
  {
    assert Fits(shapes, log[j]);
    assert Settled(db, log[j]);
    hide Settled, Land, Skips, Fits, Step, Still;
    EventKind(shapes, log[j]);
    SettledLandsStill(db, flag, log[j]);
    AbsorbedStepsStill(db, flag, log[j]);
  }

  lemma EventKind(shapes: Shapes, e: Event)
    requires Fits(shapes, e)
    ensures e.change.IsRow() || e.change.CreateTable?
  {
  }

  /** A log of any events, schema changes included, delivered once in order: nothing is skipped. */
  lemma {:induction false} InOrderNothingIsSkipped(db: Database, flag: string, log: seq<Event>, n: nat)
    requires Ordered(log) && db.checkpoint == map[] && n <= |log|
    ensures Outcome(db, flag, log[..n]) == GuardOnly(db, flag, log[..n])
    ensures Outcome(db, flag, log[..n]).1 ==> CursorsKnown(Outcome(db, flag, log[..n]).0, log, n)
    decreases n
  {
    hide Outcome, Ordered, Land, CursorsKnown, Skips;
    if n == 0 {
      OutcomeNil(db, flag);
      assert log[..0] == [];
      NoCursors(db, log);
    } else {
      InOrderNothingIsSkipped(db, flag, log, n - 1);
      assert log[..n] == log[..n - 1] + [log[n - 1]];
      assert log[..n][..n - 1] == log[..n - 1];
      OutcomeSnoc(db, flag, log[..n - 1], log[n - 1]);
      var soFar := Outcome(db, flag, log[..n - 1]);
      if soFar.1 {
        NewIsNotSkipped(soFar.0, log, n - 1, n - 1);
        if Land(soFar.0, flag, log[n - 1]).ok {
          NextCursorsKnown(soFar.0, flag, log, n - 1);
        }
      }
    }
  }

  lemma NoCursors(db: Database, log: seq<Event>)
    requires db.checkpoint == map[]
    ensures CursorsKnown(db, log, 0)
  {
  }

  // ---------------------------------------------------------------------------------------------
  // The hypotheses are the code's own.

  /** With no checkpoint yet, a streamed event is taken for a re-delivery exactly at position (0, 0). */
  lemma MissingCheckpointReadsAsZero(db: Database, e: Event)
    requires e.table !in db.checkpoint && !e.change.BypassesCursor()
    ensures Skips(db, e) <==> e.commitLsn == 0 && e.lsn == 0
  {
  }

  /** The signed comparison of two commits agrees with their order exactly when both or neither reach 2^63. */
  lemma SignedOrderIsExactBelow(a: uint64, b: uint64)
    requires a != b
    ensures (Signed(a) < Signed(b) <==> a < b) <==> (a < 0x8000_0000_0000_0000 <==> b < 0x8000_0000_0000_0000)
  {
  }

  /** The same loop with a resume point that is the commit alone. */
  predicate SkipsByCommit(db: Database, e: Event) {
    !e.change.BypassesCursor() && e.commitLsn <= Cursor(db, e.table).commit
  }

  function StepByCommit(db: Database, flag: string, e: Event): Effect {
    if SkipsByCommit(db, e) then Effect([], true) else Land(db, flag, e)
  }

  /**
   A resume point that is the commit alone drops every later row of the commit it has just recorded,
   which the composite one does not skip.
   */
  lemma CommitAloneDropsSiblings(db: Database, flag: string, first: Event, sibling: Event)
    requires first.change.IsRow() && !first.change.BypassesCursor() && !sibling.change.BypassesCursor()
    requires sibling.table == first.table && sibling.commitLsn == first.commitLsn && sibling.lsn > first.lsn
    requires Positioned(first) && Positioned(sibling)
    requires first.table !in db.checkpoint && first.commitLsn > 0
    requires Land(db, flag, first).ok
    ensures var next := Final(db, StepByCommit(db, flag, first).states);
            StepByCommit(next, flag, sibling) == Effect([], true) && !Skips(next, sibling)
  {
    hide Apply;
    var applied := Apply(db, flag, first);
    if applied.states != [] {
      ApplyIsLater(db, flag, first, Final(db, applied.states));
    }
  }

  /** A position recorded for a table is the one read back, whatever its 64 bits are. */
  lemma PositionReadsBack(db: Database, e: Event)
    ensures var next := SaveCursor(db, e.table, StampOf(e));
            && (e.table !in db.checkpoint ==> Cursor(next, e.table) == Stamp(e.commitLsn, e.lsn))
            && (Cursor(next, e.table) == Stamp(e.commitLsn, e.lsn) || Cursor(next, e.table) == Cursor(db, e.table))
            && forall t :: t != e.table ==> Cursor(next, t) == Cursor(db, t)
  {
  }
}
