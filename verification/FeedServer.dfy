/**
 The streaming server: a writer thread that commits, flushes and then says it is done, and a serve
 loop that samples `done`, pumps, and closes when a pump emits nothing and the sample was true.

 Runs are sequences of atomic steps of the two threads in any interleaving.
 */
module FeedServer {
  import opened FeedStream

  datatype Writer = Writing | FlushedLast | Done
  datatype Server = Idle | Sampled(done: bool) | Closed(clean: bool)

  /** `reach` and `window` record how far the consumer has been served and how far the last pump read. */
  datatype State = State(
    log: Log, flushed: nat, writer: Writer,
    server: Server, cursor: nat, through: nat, out: seq<ChangeEvent>, reach: nat, window: nat)

  predicate Start(s: State) {
    s == State([], 0, Writing, Idle, 0, 0, [], 0, 0)
  }

  /** The writer's own steps: append, flush, the final flush, and only then the flag. */
  ghost predicate WriterStep(s: State, s': State) {
    || (s.writer == Writing && exists r: Record :: s' == s.(log := s.log + [r]))
    || (s.writer == Writing && s' == s.(flushed := |s.log|))
    || (s.writer == Writing && s' == s.(flushed := |s.log|, writer := FlushedLast))
    || (s.writer == FlushedLast && s' == s.(writer := Done))
  }

  /** The state once a pump has returned and been acted on. */
  function Served(s: State, p: Policy, w: Window): State
    requires s.server.Sampled? && s.flushed <= |s.log| && Usable(w)
  {
    var r := Pump(s.log, p, s.cursor, s.through, s.flushed, w);
    s.(server := if r.refusal then Closed(false)
                 else if r.emitted == [] && s.server.done then Closed(true)
                 else Idle,
       cursor := r.cursor, through := r.through, out := s.out + r.emitted,
       reach := Reach(s.reach, r.window), window := r.window)
  }

  ghost predicate ServerStep(s: State, s': State, p: Policy, w: Window)
    requires Usable(w)
  {
    || (s.server == Idle && s' == s.(server := Sampled(s.writer == Done)))
    || (s.server.Sampled? && s.flushed <= |s.log| && s' == Served(s, p, w))
  }

  ghost predicate IsRun(run: seq<State>, p: Policy, w: Window)
    requires Usable(w)
  {
    && run != [] && Start(run[0])
    && forall i :: 0 <= i < |run| - 1 ==> WriterStep(run[i], run[i + 1]) || ServerStep(run[i], run[i + 1], p, w)
  }

  /** The record at `d` makes something deliverable. */
  predicate Delivers(log: Log, p: Policy, d: nat) {
    d < |log| && Candidates(p, 0, EventsAt(log, 0, d)) != []
  }

  /** The start of the log, or the end of a commit that makes something deliverable. */
  predicate Mark(log: Log, p: Policy, t: nat) {
    t == 0 || Delivers(log, p, t - 1)
  }

  ghost predicate Invariant(s: State, p: Policy, w: Window) {
    && s.flushed <= |s.log|
    && (s.writer != Writing ==> s.flushed == |s.log|)
    && (s.server == Sampled(true) || s.server == Closed(true) ==> s.writer == Done)
    && (s.server != Closed(false) ==> Exact(s.log, p, s.cursor, s.through, s.reach, s.out) && OnMark(s, p))
    && (s.server == Closed(true) ==>
          s.window <= s.reach && (s.window == |s.log| || !Within(w, OpenFrom(s.log, 0, s.through), s.window)))
  }

  /** The delivery position ends the last commit sent, and the cursor holds at what was open there. */
  ghost predicate OnMark(s: State, p: Policy) {
    && s.through <= |s.log| && Mark(s.log, p, s.through)
    && OpenFrom(s.log, 0, s.through) <= s.cursor
    && (forall e :: e in s.out ==> e.commit < s.through)
    && !HasRefusal(p, s.out)
  }

  lemma OnMarkAsLogGrows(s: State, s': State, p: Policy, r: Record)
    requires OnMark(s, p) && s' == s.(log := s.log + [r])
    ensures OnMark(s', p)
  {
    hide EventsAt, OpenFrom;
    OpenFromPrefix(s.log, [r], 0, s.through);
    if s.through > 0 {
      EventsAtPrefix(s.log, [r], 0, s.through - 1);
    }
  }

  lemma WriterKeepsInvariant(s: State, s': State, p: Policy, w: Window)
    requires Invariant(s, p, w) && WriterStep(s, s')
    ensures Invariant(s', p, w)
  {
    hide Exact, OpenFrom;
    if s.server != Closed(false) && s'.log != s.log {
      var r: Record :| s' == s.(log := s.log + [r]);
      ExactAsLogGrows(s.log, [r], p, s.cursor, s.through, s.reach, s.out);
      OnMarkAsLogGrows(s, s', p, r);
    } else {
      assert s.server != Closed(false) ==> OnMark(s', p);
    }
  }

  /** A cursor held at what is open where delivery has come to. */
  lemma HoldsAtOpen(log: Log, cursor: nat, end: nat, through: nat)
    requires cursor <= end <= |log| && through <= end
    ensures OpenFrom(log, 0, through) <= through
    ensures OpenFrom(log, 0, through) <= OpenFrom(log, cursor, end)
  {
    hide OpenFrom;
    OpenFromStops(log, 0, through);
    OpenFromStops(log, cursor, end);
    var h := OpenFrom(log, cursor, end);
    if h < OpenFrom(log, 0, through) {
      assert !OpenAt(log, h, through);
      ClosedStays(log, h, through, end);
    }
  }

  lemma {:induction false} EventsAreAtTheirCommit(log: Log, p: Policy, from: nat, end: nat, e: ChangeEvent)
    requires from <= end <= |log| && e in Candidates(p, 0, Span(log, from, end))
    ensures from <= e.commit < end && Delivers(log, p, e.commit)
    decreases end
  {
    hide EventsAt, Candidates;
    if from == end {
      NoCandidates(p, 0);
    } else {
      CandidatesConcat(p, 0, Span(log, from, end - 1), EventsAt(log, 0, end - 1));
      if e in Candidates(p, 0, Span(log, from, end - 1)) {
        EventsAreAtTheirCommit(log, p, from, end - 1, e);
      } else {
        CandidatesAre(p, 0, EventsAt(log, 0, end - 1));
        EventsAtCommit(log, 0, end - 1);
      }
    }
  }

  /** What a pump of this loop emits, and where it leaves the delivery position and the cursor. */
  lemma PumpKeepsMark(s: State, p: Policy, w: Window)
    requires Usable(w) && s.flushed <= |s.log| && s.server.Sampled? && OnMark(s, p)
    requires Exact(s.log, p, s.cursor, s.through, s.reach, s.out)
    requires !Pump(s.log, p, s.cursor, s.through, s.flushed, w).refusal
    ensures OnMark(Served(s, p, w), p)
    ensures var r := Pump(s.log, p, s.cursor, s.through, s.flushed, w);
            r.emitted == [] ==> r.through == s.through && (r.window == s.flushed || !Within(w, s.cursor, r.window))
  {
    hide Decoded, OpenFrom, Candidates, FurthestEnd, EventsAt, Span, NothingSteppedOver, Delivers;
    if s.cursor < s.flushed {
      var log, cursor, through := s.log, s.cursor, s.through;
      var end := End(w, cursor, s.flushed);
      var events := Decoded(log, cursor, end);
      var owned := Candidates(p, through, events);
      ExactIsClear(log, p, cursor, s.reach, end);
      CandidatesAreNew(log, p, cursor, through, s.reach, s.out, end);
      CandidatesAre(p, through, events);
      FurthestEndBounds(owned, |log|, through);
      FurthestEndBounds(events, |log|, cursor);
      DecodedCommits(log, cursor, end);
      var next := FurthestEnd(owned, |log|, through);
      if next != through {
        var e :| e in owned && e.commit < |log| && e.commit + 1 == next;
        EmptySpanOrNot(log, p, s.reach, end, e);
        EventsAreAtTheirCommit(log, p, s.reach, end, e);
        HoldsAtOpen(log, cursor, end, next);
      }
      assert owned == [] ==> next == through by { NoFurthestEnd(|log|, through); }
      OpenFromBounds(log, cursor, end);
      var served := Served(s, p, w);
      assert served.through == next && served.out == s.out + owned;
    }
  }

  lemma NoFurthestEnd(bound: nat, base: nat)
    ensures FurthestEnd([], bound, base) == base
  {
  }

  lemma EmptySpanOrNot(log: Log, p: Policy, reach: nat, end: nat, e: ChangeEvent)
    requires reach <= |log| && end <= |log| && e in Candidates(p, 0, Span(log, reach, end))
    ensures reach <= end
  {
  }

  lemma ServerKeepsInvariant(s: State, s': State, p: Policy, w: Window)
    requires Usable(w) && Invariant(s, p, w) && ServerStep(s, s', p, w)
    ensures Invariant(s', p, w)
  {
    hide Decoded, OpenFrom, Candidates, FurthestEnd, Exact, Delivers, Pump;
    if s.server.Sampled? && !Pump(s.log, p, s.cursor, s.through, s.flushed, w).refusal {
      PumpIsExact(s.log, p, s.cursor, s.through, s.reach, s.out, s.flushed, w);
      PumpKeepsMark(s, p, w);
    }
  }

  lemma {:induction false} InvariantHolds(run: seq<State>, p: Policy, w: Window)
    requires Usable(w) && IsRun(run, p, w)
    ensures Invariant(run[|run| - 1], p, w)
    decreases |run|
  {
    if |run| == 1 {
      assert Decoded([], 0, 0) == [];
    } else {
      hide Invariant, WriterStep, ServerStep;
      var init, i := run[..|run| - 1], |run| - 2;
      assert init[|init| - 1] == run[i] && init[0] == run[0];
      InvariantHolds(init, p, w);
      if WriterStep(run[i], run[i + 1]) {
        WriterKeepsInvariant(run[i], run[i + 1], p, w);
      } else {
        ServerKeepsInvariant(run[i], run[i + 1], p, w);
      }
    }
  }

  /** Until a refusal, a consumer has been sent a prefix of the deliverable changes, each exactly once. */
  lemma ServedExactly(run: seq<State>, p: Policy, w: Window)
    requires Usable(w) && IsRun(run, p, w)
    requires run[|run| - 1].server != Closed(false)
    ensures var s := run[|run| - 1];
            s.reach <= |s.log| && s.out == Deliverable(s.log, p, s.reach)
  {
    hide Deliverable, NothingSteppedOver;
    InvariantHolds(run, p, w);
  }

  // ---------------------------------------------------------------------------------------------
  // When a clean close has sent everything.

  /**
   A log on which the loop can stop short: with everything up to `t` sent, the next deliverable commit
   `d` is a whole window or more past the earliest change still open at `t`, or past `t` if none is.
   */
  ghost predicate Stalls(log: Log, p: Policy, w: Window, t: nat, d: nat) {
    && t <= d && Mark(log, p, t) && Delivers(log, p, d)
    && (forall c: nat | t <= c < d :: !Delivers(log, p, c))
    && !HasRefusal(p, Deliverable(log, p, d))
    && !Within(w, OpenFrom(log, 0, t), d)
  }

  /** A run that ends in a clean close on the given log, everything written. */
  ghost predicate ClosesOn(run: seq<State>, log: Log) {
    run != [] && run[|run| - 1].server == Closed(true) && run[|run| - 1].log == log
  }

  /** The first record from `lo` on that makes something deliverable. */
  lemma {:induction false} FirstDelivery(log: Log, p: Policy, lo: nat) returns (d: nat)
    requires lo <= |log| && Candidates(p, 0, Span(log, lo, |log|)) != []
    ensures lo <= d < |log| && Delivers(log, p, d) && forall c: nat | lo <= c < d :: !Delivers(log, p, c)
    decreases |log| - lo
  {
    hide EventsAt, Candidates;
    NoCandidates(p, 0);
    if lo < |log| {
      if Delivers(log, p, lo) {
        return lo;
      }
      SpanConcat(log, lo, lo + 1, |log|);
      assert Span(log, lo, lo + 1) == Span(log, lo, lo) + EventsAt(log, 0, lo) == EventsAt(log, 0, lo);
      CandidatesConcat(p, 0, Span(log, lo, lo + 1), Span(log, lo + 1, |log|));
      d := FirstDelivery(log, p, lo + 1);
    }
  }

  /** Records that make nothing deliverable add nothing to what is. */
  lemma {:induction false} NothingBetween(log: Log, p: Policy, lo: nat, hi: nat)
    requires lo <= hi <= |log| && forall c: nat | lo <= c < hi :: !Delivers(log, p, c)
    ensures Candidates(p, 0, Span(log, lo, hi)) == [] && Deliverable(log, p, hi) == Deliverable(log, p, lo)
    decreases hi
  {
    hide EventsAt, Candidates, Deliverable;
    if lo == hi {
      NoCandidates(p, 0);
    } else {
      NothingBetween(log, p, lo, hi - 1);
      assert !Delivers(log, p, hi - 1);
      CandidatesConcat(p, 0, Span(log, lo, hi - 1), EventsAt(log, 0, hi - 1));
      NewDeliverable(log, p, lo, hi);
    }
  }

  lemma DeliversIsDelivered(log: Log, p: Policy, c: nat, n: nat) returns (e: ChangeEvent)
    requires c < n <= |log| && Delivers(log, p, c)
    ensures e in Deliverable(log, p, n) && e.commit == c
  {
    hide EventsAt, Candidates, Decoded;
    e := Candidates(p, 0, EventsAt(log, 0, c))[0];
    CandidatesAre(p, 0, EventsAt(log, 0, c));
    EventsAtCommit(log, 0, c);
    DecodedHas(log, n, c);
    CandidatesAre(p, 0, Decoded(log, 0, n));
  }

  /** A clean close that left something unsent stalled. */
  lemma ShortCloseStalls(run: seq<State>, p: Policy, w: Window, log: Log) returns (t: nat, d: nat)
    requires Usable(w) && IsRun(run, p, w) && ClosesOn(run, log)
    requires run[|run| - 1].out != Deliverable(log, p, |log|)
    ensures Stalls(log, p, w, t, d)
  {
    hide Deliverable, NothingSteppedOver, Candidates, Span, Delivers, OpenFrom, IsRun;
    InvariantHolds(run, p, w);
    var s := run[|run| - 1];
    NewDeliverable(log, p, s.reach, |log|);
    assert s.out + [] == s.out;
    t := s.through;
    d := FirstDelivery(log, p, s.reach);
    NothingBetween(log, p, s.reach, d);
    forall c: nat | t <= c < d
      ensures !Delivers(log, p, c)
    {
      if c < s.reach && Delivers(log, p, c) {
        var e := DeliversIsDelivered(log, p, c, s.reach);
      }
    }
  }

  // --- a stalled log does lose --------------------------------------------------------------------

  /** A run with one more step. */
  lemma Extends(run: seq<State>, next: State, p: Policy, w: Window) returns (longer: seq<State>)
    requires Usable(w) && IsRun(run, p, w)
    requires WriterStep(run[|run| - 1], next) || ServerStep(run[|run| - 1], next, p, w)
    ensures IsRun(longer, p, w) && longer[|longer| - 1] == next
  {
    hide WriterStep, ServerStep;
    longer := run + [next];
    forall i | 0 <= i < |longer| - 1
      ensures WriterStep(longer[i], longer[i + 1]) || ServerStep(longer[i], longer[i + 1], p, w)
    {
      if i < |run| - 1 {
        assert longer[i] == run[i] && longer[i + 1] == run[i + 1];
      }
    }
  }

  lemma {:induction false} Writes(run: seq<State>, records: Log, p: Policy, w: Window) returns (longer: seq<State>)
    requires Usable(w) && IsRun(run, p, w) && run[|run| - 1].writer == Writing
    ensures IsRun(longer, p, w)
    ensures var s := run[|run| - 1]; longer[|longer| - 1] == s.(log := s.log + records)
    decreases |records|
  {
    var s := run[|run| - 1];
    if records == [] {
      assert s.log + records == s.log;
      longer := run;
    } else {
      var one := s.(log := s.log + [records[0]]);
      assert WriterStep(s, one);
      hide IsRun;
      var more := Extends(run, one, p, w);
      longer := Writes(more, records[1..], p, w);
      assert one.log + records[1..] == s.log + records;
    }
  }

  /** The last mark at or before `d`. */
  lemma {:induction false} LastMark(log: Log, p: Policy, d: nat) returns (t: nat)
    ensures t <= d && Mark(log, p, t) && forall c: nat | t <= c < d :: !Delivers(log, p, c)
    decreases d
  {
    hide Delivers;
    if Mark(log, p, d) {
      t := d;
    } else {
      t := LastMark(log, p, d - 1);
    }
  }

  /** A server that has just sent everything up to the mark `t`, of a writer that has written up to it. */
  ghost predicate AtMark(s: State, log: Log, p: Policy, t: nat) {
    && t <= |log| && s.log == log[..t] && s.flushed == t && s.writer == Writing && s.server == Idle
    && s.through == t == s.reach && s.cursor == OpenFrom(log, 0, t)
  }

  lemma OpenFromSkips(log: Log, cursor: nat, end: nat)
    requires cursor <= end <= |log| && NothingSteppedOver(log, cursor, end)
    ensures OpenFrom(log, cursor, end) == OpenFrom(log, 0, end)
  {
    hide OpenFrom, Finished;
    OpenFromStops(log, cursor, end);
    assert forall k: nat :: k < end && log[k].Change? && !Finished(log, k, end) ==> OpenAt(log, k, end);
    OpenFromIsLeast(log, 0, end, OpenFrom(log, cursor, end));
  }

  /** One pump that reads exactly from one mark to the end of the next deliverable commit. */
  lemma PumpToNextMark(s: State, log: Log, p: Policy, w: Window, d: nat)
    requires Usable(w) && d < |log| && s.log == log[..d + 1] && s.flushed == d + 1 && s.server == Sampled(false)
    requires Exact(s.log, p, s.cursor, s.through, s.reach, s.out) && s.through == s.reach <= d
    requires Delivers(log, p, d) && !HasRefusal(p, Deliverable(log, p, d + 1))
    requires s.cursor <= d && Within(w, s.cursor, d)
    ensures var r := Served(s, p, w);
            && r.server == Idle && r.through == d + 1 == r.reach && r.cursor == OpenFrom(log, 0, d + 1)
  {
    hide Decoded, OpenFrom, Candidates, FurthestEnd, EventsAt, Span, NothingSteppedOver;
    var pre, end := s.log, d + 1;
    assert End(w, s.cursor, end) == end by { ReadsTo(w, s.cursor, d); }
    assert log == pre + log[end..];
    EventsAtPrefix(pre, log[end..], 0, d);
    DecodedPrefix(pre, log[end..], 0, end);
    OpenFromPrefix(pre, log[end..], 0, end);
    assert Delivers(pre, p, d) && Deliverable(pre, p, end) == Deliverable(log, p, end);
    var events := Decoded(pre, s.cursor, end);
    var owned := Candidates(p, s.through, events);
    ExactIsClear(pre, p, s.cursor, s.reach, end);
    CandidatesAreNew(pre, p, s.cursor, s.through, s.reach, s.out, end);
    NewDeliverable(pre, p, s.reach, end);
    var e := DeliversIsDelivered(pre, p, d, end);
    CandidatesAre(p, 0, Decoded(pre, 0, s.reach));
    DecodedCommits(pre, 0, s.reach);
    assert e in owned;
    CandidatesAre(p, s.through, events);
    DecodedCommits(pre, s.cursor, end);
    FurthestEndBounds(owned, |pre|, s.through);
    FurthestEndBounds(events, |pre|, s.cursor);
    assert !HasRefusal(p, owned);
    OpenFromBounds(pre, s.cursor, end);
    CursorStepsOverNothing(pre, s.cursor, s.reach, end, s.cursor);
    OpenFromSkips(pre, s.cursor, end);
    OpenFromStops(pre, 0, end);
  }

  /** Records start in order, so a window that reaches one reaches those before it. */
  lemma ReadsTo(w: Window, cursor: nat, d: nat)
    requires Usable(w) && cursor <= d && Within(w, cursor, d)
    ensures End(w, cursor, d + 1) == d + 1
  {
    forall k: nat | cursor <= k < d
      ensures Within(w, cursor, k)
    {
      assert w.start(k) < w.start(d);
    }
  }

  /** Below the first stall, a run can be made to stop at any mark. */
  lemma {:induction false} Reaches(log: Log, p: Policy, w: Window, t: nat) returns (run: seq<State>)
    requires Usable(w) && t <= |log| && Mark(log, p, t) && !HasRefusal(p, Deliverable(log, p, t))
    requires forall t', d: nat | d < t :: !Stalls(log, p, w, t', d)
    ensures IsRun(run, p, w) && AtMark(run[|run| - 1], log, p, t)
    decreases t
  {
    hide Decoded, OpenFrom, Candidates, Delivers, Stalls, Deliverable, NothingSteppedOver, Served;
    if t == 0 {
      run := [State([], 0, Writing, Idle, 0, 0, [], 0, 0)];
      OpenFromStops(log, 0, 0);
    } else {
      var d := t - 1;
      var t' := LastMark(log, p, d);
      NoRefusalBefore(log, p, t', t);
      NoRefusalBefore(log, p, d, t);
      run := Reaches(log, p, w, t');
      WithinWindow(log, p, w, t', d);
      OpenFromStops(log, 0, t');
      run := Writes(run, log[t'..t], p, w);
      var s := run[|run| - 1];
      assert log[..t'] + log[t'..t] == log[..t];
      hide IsRun;
      run := Extends(run, s.(flushed := t), p, w);
      run := Extends(run, s.(flushed := t, server := Sampled(false)), p, w);
      s := run[|run| - 1];
      InvariantHolds(run, p, w);
      PumpToNextMark(s, log, p, w, d);
      run := Extends(run, Served(s, p, w), p, w);
      ServedKeeps(s, p, w);
    }
  }

  lemma ServedKeeps(s: State, p: Policy, w: Window)
    requires s.server.Sampled? && s.flushed <= |s.log| && Usable(w)
    ensures var r := Served(s, p, w); r.log == s.log && r.flushed == s.flushed && r.writer == s.writer
  {
  }

  lemma WithinWindow(log: Log, p: Policy, w: Window, t: nat, d: nat)
    requires t <= d && Mark(log, p, t) && Delivers(log, p, d) && !HasRefusal(p, Deliverable(log, p, d))
    requires (forall c: nat | t <= c < d :: !Delivers(log, p, c)) && !Stalls(log, p, w, t, d)
    ensures Within(w, OpenFrom(log, 0, t), d)
  {
  }

  lemma NoRefusalBefore(log: Log, p: Policy, m: nat, n: nat)
    requires m <= n <= |log| && !HasRefusal(p, Deliverable(log, p, n))
    ensures !HasRefusal(p, Deliverable(log, p, m))
  {
    hide Decoded, Candidates, Deliverable;
    NewDeliverable(log, p, m, n);
  }

  /** The pump after the flag, on a stalled log: it emits nothing, and the loop closes. */
  lemma PumpStalls(s: State, p: Policy, w: Window, t: nat, d: nat)
    requires Usable(w) && Stalls(s.log, p, w, t, d)
    requires s.flushed == |s.log| && s.server == Sampled(true) && s.cursor == OpenFrom(s.log, 0, t)
    requires Exact(s.log, p, s.cursor, s.through, s.reach, s.out) && s.reach == t
    ensures Served(s, p, w).server == Closed(true) && Served(s, p, w).out == s.out
    ensures s.out != Deliverable(s.log, p, |s.log|)
  {
    hide Decoded, OpenFrom, Candidates, FurthestEnd, EventsAt, Span, NothingSteppedOver;
    var log, end := s.log, End(w, s.cursor, |s.log|);
    OpenFromStops(log, 0, t);
    ExactIsClear(log, p, s.cursor, s.reach, end);
    CandidatesAreNew(log, p, s.cursor, s.through, s.reach, s.out, end);
    if t <= end {
      NothingBetween(log, p, t, end);
    } else {
      NoCandidates(p, 0);
      EmptySpan(log, t, end);
    }
    assert Pump(log, p, s.cursor, s.through, s.flushed, w).emitted == [];
    assert s.out + [] == s.out;
    var e := DeliversIsDelivered(log, p, d, |log|);
    CandidatesAre(p, 0, Decoded(log, 0, t));
    DecodedCommits(log, 0, t);
  }

  /** The writer finishes, and the server reads the flag. */
  lemma Finishes(run: seq<State>, log: Log, p: Policy, w: Window, t: nat) returns (longer: seq<State>)
    requires Usable(w) && IsRun(run, p, w) && AtMark(run[|run| - 1], log, p, t)
    ensures IsRun(longer, p, w)
    ensures var s := run[|run| - 1];
            longer[|longer| - 1] == s.(log := log, flushed := |log|, writer := Done, server := Sampled(true))
  {
    hide OpenFrom;
    var s := run[|run| - 1];
    longer := Writes(run, log[t..], p, w);
    assert log[..t] + log[t..] == log;
    hide IsRun;
    longer := Extends(longer, s.(log := log, flushed := |log|, writer := FlushedLast), p, w);
    longer := Extends(longer, s.(log := log, flushed := |log|, writer := Done), p, w);
    longer := Extends(longer, s.(log := log, flushed := |log|, writer := Done, server := Sampled(true)), p, w);
  }

  /** On a stalled log some run of the two threads closes cleanly with something unsent. */
  lemma {:induction false} StalledLogLoses(log: Log, p: Policy, w: Window, t: nat, d: nat) returns (run: seq<State>)
    requires Usable(w) && Stalls(log, p, w, t, d)
    ensures IsRun(run, p, w) && ClosesOn(run, log) && run[|run| - 1].out != Deliverable(log, p, |log|)
    decreases d
  {
    assert d < |log|;
    hide OpenFrom, Delivers, Deliverable, Served, NothingSteppedOver;
    if t': nat, d': nat :| d' < d && Stalls(log, p, w, t', d') {
      run := StalledLogLoses(log, p, w, t', d');
    } else {
      NoRefusalBefore(log, p, t, d);
      run := Reaches(log, p, w, t);
      run := Finishes(run, log, p, w, t);
      hide IsRun, Stalls;
      InvariantHolds(run, p, w);
      var s := run[|run| - 1];
      PumpStalls(s, p, w, t, d);
      ServedKeeps(s, p, w);
      run := Extends(run, Served(s, p, w), p, w);
    }
  }

  ghost predicate SentAll(run: seq<State>, log: Log, p: Policy) {
    run != [] && run[|run| - 1].out == Deliverable(log, p, |log|)
  }

  /** Every clean close on a log has sent everything, whatever the interleaving, exactly when it never stalls. */
  lemma CleanCloseIff(log: Log, p: Policy, w: Window)
    requires Usable(w)
    ensures (forall run | IsRun(run, p, w) && ClosesOn(run, log) :: SentAll(run, log, p)) <==>
            (forall t: nat, d: nat :: !Stalls(log, p, w, t, d))
  {
    hide IsRun, Deliverable, Stalls;
    if t: nat, d: nat :| Stalls(log, p, w, t, d) {
      var run := StalledLogLoses(log, p, w, t, d);
      assert !SentAll(run, log, p);
    }
    forall run | IsRun(run, p, w) && ClosesOn(run, log)
      ensures SentAll(run, log, p) || exists t: nat, d: nat :: Stalls(log, p, w, t, d)
    {
      if !SentAll(run, log, p) {
        var t, d := ShortCloseStalls(run, p, w, log);
      }
    }
  }

  // --- logs that stall ----------------------------------------------------------------------------

  /** A record as many places on as a window has bytes is past the window. */
  lemma {:induction false} PastTheWindow(w: Window, n: nat)
    requires Usable(w)
    ensures w.start(n) >= w.start(0) + n
    decreases n
  {
    if n > 0 {
      PastTheWindow(w, n - 1);
    }
  }

  /** A window's worth of changes of an excluded table, and then a published one. */
  function ExcludedBacklog(n: nat): (log: Log)
    ensures |log| == n + 1
  {
    seq(n + 1, i requires 0 <= i < n + 1 => if i < n then Ddl("hidden", i) else Ddl("open", i))
  }

  lemma ExcludedBacklogStalls(w: Window)
    requires Usable(w)
    ensures Stalls(ExcludedBacklog(w.bytes), Policy({"hidden"}, NO_SNAPSHOT, {}), w, 0, w.bytes)
  {
    var n := w.bytes;
    var log, p := ExcludedBacklog(n), Policy({"hidden"}, NO_SNAPSHOT, {});
    forall c: nat | c < n
      ensures !Delivers(log, p, c)
    {
      assert EventsAt(log, 0, c) == [ChangeEvent(0, c, c, "hidden", c)];
      NoneIsCandidate(p, 0, EventsAt(log, 0, c));
    }
    var e := ChangeEvent(0, n, n, "open", n);
    assert EventsAt(log, 0, n) == [e] && [e][..0] == [];
    LastStalls(log, p, w, n);
  }

  /** A transaction of as many changes as a window has bytes. */
  function LongTransaction(n: nat): (log: Log)
    ensures |log| == n + 1
  {
    seq(n + 1, i requires 0 <= i < n + 1 => if i < n then Change(1, "open", i) else Commit(1))
  }

  lemma LongTransactionIsOwed(n: nat)
    requires n >= 1
    ensures Owed(LongTransaction(n), Policy({}, NO_SNAPSHOT, {}), 0, 0, n + 1)
  {
    var log := LongTransaction(n);
    assert forall j: nat :: j < n ==> !Ends(log, j, 1);
    assert ReleasedAt(log, 0, n);
  }

  lemma OnlyTheCommitDelivers(n: nat, p: Policy, c: nat)
    requires c < n
    ensures !Delivers(LongTransaction(n), p, c)
  {
    NoCandidates(p, 0);
    ChangeReleasesNothing(LongTransaction(n), 0, c);
  }

  lemma LongTransactionStalls(w: Window)
    requires Usable(w)
    ensures Stalls(LongTransaction(w.bytes), Policy({}, NO_SNAPSHOT, {}), w, 0, w.bytes)
  {
    var n := w.bytes;
    var log, p := LongTransaction(n), Policy({}, NO_SNAPSHOT, {});
    hide EventsAt, Decoded, Candidates, OpenFrom, Span, LongTransaction, Delivers, Owed, Stalls, Deliverable;
    assert n >= 1;
    hide Usable;
    LongTransactionIsOwed(n);
    var e := OwedIsDeliverable(log, p, 0, 0, n + 1);
    forall c: nat | c < n
      ensures !Delivers(log, p, c)
    {
      OnlyTheCommitDelivers(n, p, c);
    }
    NewDeliverable(log, p, 0, n + 1);
    NothingAtStart(log, p);
    EventsAreAtTheirCommit(log, p, 0, n + 1, e);
    LastStalls(log, p, w, n);
  }

  lemma NothingAtStart(log: Log, p: Policy)
    ensures Deliverable(log, p, 0) == []
  {
  }

  /** A log whose only delivery is a window past its start. */
  lemma LastStalls(log: Log, p: Policy, w: Window, n: nat)
    requires Usable(w) && n == w.bytes < |log| && Delivers(log, p, n) && forall c: nat | c < n :: !Delivers(log, p, c)
    ensures Stalls(log, p, w, 0, n)
  {
    hide Delivers, Deliverable, Span, Candidates, OpenFrom;
    PastTheWindow(w, n);
    hide Usable;
    NothingBetween(log, p, 0, n);
    NothingAtStart(log, p);
    OpenFromStops(log, 0, 0);
  }

  /**
   Under another writer or publication the same loop does lose rows, whatever its window: it takes an
   excluded backlog, or one long transaction, for having caught up.
   */
  lemma CleanCloseCanLoseRows(w: Window) returns (excluded: seq<State>, long: seq<State>)
    requires Usable(w)
    ensures IsRun(excluded, Policy({"hidden"}, NO_SNAPSHOT, {}), w) && ClosesOn(excluded, ExcludedBacklog(w.bytes))
    ensures !SentAll(excluded, ExcludedBacklog(w.bytes), Policy({"hidden"}, NO_SNAPSHOT, {}))
    ensures IsRun(long, Policy({}, NO_SNAPSHOT, {}), w) && ClosesOn(long, LongTransaction(w.bytes))
    ensures !SentAll(long, LongTransaction(w.bytes), Policy({}, NO_SNAPSHOT, {}))
  {
    hide IsRun, Stalls, Deliverable, ExcludedBacklog, LongTransaction, Usable;
    ExcludedBacklogStalls(w);
    LongTransactionStalls(w);
    excluded := StalledLogLoses(ExcludedBacklog(w.bytes), Policy({"hidden"}, NO_SNAPSHOT, {}), w, 0, w.bytes);
    long := StalledLogLoses(LongTransaction(w.bytes), Policy({}, NO_SNAPSHOT, {}), w, 0, w.bytes);
  }

  // ---------------------------------------------------------------------------------------------
  // Reading the flag after the pump.

  const ROW := ChangeEvent(1, 0, 1, "open", 1)
  const ONE_ROW: Log := [Change(1, "open", 1), Commit(1)]
  const FREE := Policy({}, NO_SNAPSHOT, {})

  lemma OneRowIsDeliverable()
    ensures Deliverable(ONE_ROW, FREE, 2) == [ROW]
  {
  }

  /** The same loop with `done` read after the pump: first the pump, keeping whether it emitted nothing. */
  ghost predicate LatePump(s: State, s': State, p: Policy, w: Window)
    requires Usable(w)
  {
    && s.server == Idle && s.flushed <= |s.log|
    && var r := Pump(s.log, p, s.cursor, s.through, s.flushed, w);
       s' == s.(server := Sampled(r.emitted == []), cursor := r.cursor, through := r.through, out := s.out + r.emitted,
                reach := Reach(s.reach, r.window), window := r.window)
  }

  /** ... then the flag, read only now. */
  ghost predicate LateTest(s: State, s': State) {
    s.server.Sampled? && s' == s.(server := if s.server.done && s.writer == Done then Closed(true) else Idle)
  }

  /** Reading the flag after the pump: the pump sees nothing, the writer finishes, and the loop closes. */
  lemma LateSampleLosesRows(w: Window) returns (run: seq<State>)
    requires Usable(w)
    ensures |run| == 7 && Start(run[0]) && LatePump(run[0], run[1], FREE, w)
    ensures forall i :: 1 <= i < 5 ==> WriterStep(run[i], run[i + 1])
    ensures LateTest(run[5], run[6]) && run[6].server == Closed(true)
    ensures run[6].out == [] != Deliverable(run[6].log, FREE, |run[6].log|)
  {
    var s0 := State([], 0, Writing, Idle, 0, 0, [], 0, 0);
    var s1 := s0.(server := Sampled(true));
    var s2 := s1.(log := [Change(1, "open", 1)]);
    var s3 := s2.(log := ONE_ROW);
    var s4 := s3.(flushed := 2, writer := FlushedLast);
    var s5 := s4.(writer := Done);
    assert s2 == s1.(log := s1.log + [Change(1, "open", 1)]);
    assert s3 == s2.(log := s2.log + [Commit(1)]);
    run := [s0, s1, s2, s3, s4, s5, s5.(server := Closed(true))];
    OneRowIsDeliverable();
  }
}
