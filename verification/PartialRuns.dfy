/**
 What the partial-trace store does over whole runs.  For each thought the run has a history: the
 recognised events since the last seal or purge, and the closed segments before them.  The store
 is exactly those histories, so thoughts cannot influence one another and no event is lost.
 */
module PartialRuns {
  import opened Wrappers
  import opened Events
  import opened Partial

  datatype Op =
    | Captured(ev: InboundEvent, traceId: string)
    | Swept(now: int, maxAgeSecs: int)

  // ---- Running the store -------------------------------------------------------------------------

  function Apply(clock: Clock, s: Store, op: Op): Store {
    match op
    case Captured(ev, traceId) => CaptureStep(s, ev, traceId).0
    case Swept(now, maxAgeSecs) => SweepStep(clock, s, now, maxAgeSecs)
  }

  function Run(clock: Clock, ops: seq<Op>): Store {
    if ops == [] then EMPTY else Apply(clock, Run(clock, ops[..|ops| - 1]), ops[|ops| - 1])
  }

  /** The trace of thought `t` that `op` seals when it meets the store `s`. */
  function SealedNow(s: Store, op: Op, t: string): seq<CompleteTrace> {
    match op
    case Captured(ev, traceId) =>
      (match CaptureStep(s, ev, traceId).1
       case Sealed(trace) => if trace.thoughtId == t then [trace] else []
       case _ => [])
    case Swept(_, _) => []
  }

  function SealedTraces(clock: Clock, ops: seq<Op>, t: string): seq<CompleteTrace> {
    if ops == [] then []
    else
      SealedTraces(clock, ops[..|ops| - 1], t) + SealedNow(Run(clock, ops[..|ops| - 1]), ops[|ops| - 1], t)
  }

  // ---- Histories -----------------------------------------------------------------------------------

  predicate Recognised(op: Op, t: string) {
    op.Captured? && op.ev.thoughtId == t && Parse(op.ev.eventType).Some?
  }

  function Kind(op: Op): EventType
    requires op.Captured? && Parse(op.ev.eventType).Some?
  {
    Parse(op.ev.eventType).value
  }

  datatype Segment = SealedSegment(ops: seq<Op>) | PurgedSegment(ops: seq<Op>)

  /** Closed segments, oldest first, and the events still waiting. */
  datatype History = History(closed: seq<Segment>, pending: seq<Op>)

  function Advance(clock: Clock, h: History, op: Op, t: string): History {
    match op
    case Captured(ev, _) =>
      if !Recognised(op, t) then h
      else if SealsTrace(Kind(op)) then History(h.closed + [SealedSegment(h.pending + [op])], [])
      else h.(pending := h.pending + [op])
    case Swept(now, maxAgeSecs) =>
      if h.pending != [] && h.pending[0].Captured? && Stale(clock, h.pending[0].ev.timestamp, now, maxAgeSecs)
      then History(h.closed + [PurgedSegment(h.pending)], [])
      else h
  }

  function HistoryOf(clock: Clock, ops: seq<Op>, t: string): History {
    if ops == [] then History([], [])
    else Advance(clock, HistoryOf(clock, ops[..|ops| - 1], t), ops[|ops| - 1], t)
  }

  // ---- The trace that a segment amounts to ------------------------------------------------------------

  ghost predicate AllRecognised(p: seq<Op>, t: string) {
    forall i | 0 <= i < |p| :: Recognised(p[i], t)
  }

  /** How many of the first `n` events of `p` are of kind `e`. */
  function Occurrences(p: seq<Op>, n: nat, e: EventType): nat
    requires n <= |p|
  {
    if n == 0 then 0
    else Occurrences(p, n - 1, e) + if p[n - 1].Captured? && Parse(p[n - 1].ev.eventType) == Some(e) then 1 else 0
  }

  /** The first value that is present. */
  function FirstPresent(values: seq<Option<string>>): Option<string> {
    if values == [] then None else if values[0].Some? then values[0] else FirstPresent(values[1..])
  }

  function TaskIds(p: seq<Op>): seq<Option<string>> {
    seq(|p|, i requires 0 <= i < |p| => if p[i].Captured? then p[i].ev.taskId else None)
  }

  function Levels(p: seq<Op>): seq<Option<string>> {
    seq(|p|, i requires 0 <= i < |p| => if p[i].Captured? then p[i].ev.traceLevel else None)
  }

  /** The `i`-th event of `p` as a component: numbered among the events of its own kind. */
  function ComponentAt(p: seq<Op>, i: nat, t: string): TraceComponent
    requires i < |p| && Recognised(p[i], t)
  {
    var e := Kind(p[i]);
    TraceComponent(ComponentOf(e), e, p[i].ev.timestamp, Occurrences(p, i, e) % U32, p[i].ev.data, p[i].ev.agentIdHash)
  }

  ghost function Assemble(p: seq<Op>, t: string): CompleteTrace
    requires p != [] && AllRecognised(p, t)
  {
    CompleteTrace(
      p[0].traceId, t, FirstPresent(TaskIds(p)), p[0].ev.agentIdHash, p[0].ev.timestamp, None,
      seq(|p|, i requires 0 <= i < |p| => ComponentAt(p, i, t)),
      None, None, FirstPresent(Levels(p)), TRACE_SCHEMA_VERSION, None)
  }

  /** A sealed trace is the assembled one, completed by its last event. */
  ghost function SealOf(p: seq<Op>, t: string): CompleteTrace
    requires p != [] && AllRecognised(p, t)
  {
    Assemble(p, t).(completedAt := Some(p[|p| - 1].ev.timestamp))
  }

  // ---- The store is its histories ----------------------------------------------------------------------

  /** As far as thought `t` goes, the store holds the pending events `p` and nothing else. */
  ghost predicate Holds(s: Store, t: string, p: seq<Op>) {
    && AllRecognised(p, t)
    && (t in s.active <==> p != [])
    && (p != [] ==> s.active[t] == Assemble(p, t))
    && (forall e :: (t, e) in s.counters <==> Occurrences(p, |p|, e) > 0)
    && (forall e | (t, e) in s.counters :: s.counters[(t, e)] == Occurrences(p, |p|, e) % U32)
  }

  lemma {:induction false} FirstPresentSnoc(values: seq<Option<string>>, last: Option<string>)
    ensures FirstPresent(values + [last]) == OrElse(FirstPresent(values), last)
  {
    if values != [] {
      assert (values + [last])[1..] == values[1..] + [last];
      FirstPresentSnoc(values[1..], last);
    }
  }

  lemma {:induction false} OccurrencesPrefix(p: seq<Op>, op: Op, n: nat, e: EventType)
    requires n <= |p|
    ensures Occurrences(p + [op], n, e) == Occurrences(p, n, e)
  {
    hide Parse;
    if n > 0 { OccurrencesPrefix(p, op, n - 1, e); }
  }

  lemma NextIndexIs(s: Store, t: string, p: seq<Op>, e: EventType)
    requires Holds(s, t, p)
    ensures NextIndex(s.counters, t, e) == Occurrences(p, |p|, e) % U32
  {
    hide Parse;
  }

  lemma ComponentsSnoc(p: seq<Op>, op: Op, t: string)
    requires AllRecognised(p, t) && Recognised(op, t)
    ensures AllRecognised(p + [op], t)
    ensures Occurrences(p + [op], |p|, Kind(op)) == Occurrences(p, |p|, Kind(op))
    ensures forall i | 0 <= i < |p| :: ComponentAt(p + [op], i, t) == ComponentAt(p, i, t)
  {
    hide Parse, ComponentOf, Occurrences;
    forall i | 0 <= i < |p| ensures ComponentAt(p + [op], i, t) == ComponentAt(p, i, t) {
      OccurrencesPrefix(p, op, i, Kind(p[i]));
    }
    OccurrencesPrefix(p, op, |p|, Kind(op));
  }

  lemma FieldsSnoc(p: seq<Op>, op: Op)
    requires op.Captured?
    ensures FirstPresent(TaskIds(p + [op])) == OrElse(FirstPresent(TaskIds(p)), op.ev.taskId)
    ensures FirstPresent(Levels(p + [op])) == OrElse(FirstPresent(Levels(p)), op.ev.traceLevel)
  {
    assert TaskIds(p + [op]) == TaskIds(p) + [op.ev.taskId];
    assert Levels(p + [op]) == Levels(p) + [op.ev.traceLevel];
    FirstPresentSnoc(TaskIds(p), op.ev.taskId);
    FirstPresentSnoc(Levels(p), op.ev.traceLevel);
  }

  /** Adding a recognised event to the store extends the assembled trace by it. */
  lemma AssembleSnoc(s: Store, t: string, p: seq<Op>, op: Op)
    requires Holds(s, t, p) && Recognised(op, t)
    ensures AllRecognised(p + [op], t)
    ensures Extended(s, op.ev, Kind(op), op.traceId) == Assemble(p + [op], t)
  {
    ComponentsSnoc(p, op, t);
    FieldsSnoc(p, op);
    NextIndexIs(s, t, p, Kind(op));
    if p == [] { assert TaskIds(p) == [] && Levels(p) == []; }
    hide Parse, ComponentOf, FirstPresent, Occurrences, TaskIds, Levels;
    var longer := p + [op];
    assert Assemble(longer, t).components == Extended(s, op.ev, Kind(op), op.traceId).components;
  }

  /** One operation moves the store and the history of every thought together. */
  lemma StepHolds(clock: Clock, s: Store, op: Op, t: string, h: History)
    requires Holds(s, t, h.pending)
    ensures Holds(Apply(clock, s, op), t, Advance(clock, h, op, t).pending)
  {
    hide Parse, Find, ComponentOf, Assemble, Extended, Stale, AllRecognised;
    var p := h.pending;
    match op
    case Captured(ev, traceId) =>
      if Recognised(op, t) {
        AssembleSnoc(s, t, p, op);
        NextIndexIs(s, t, p, Kind(op));
        if SealsTrace(Kind(op)) {
          NothingHeld(Apply(clock, s, op), t);
        } else {
          BumpHolds(s, t, p, op);
        }
      } else if Parse(ev.eventType).Some? {
        OtherThoughtHolds(s, t, p, op);
      }
    case Swept(now, maxAgeSecs) =>
      SweepHolds(clock, s, t, p, now, maxAgeSecs);
  }

  lemma NothingHeld(s: Store, t: string)
    requires t !in s.active && forall e :: (t, e) !in s.counters
    ensures Holds(s, t, [])
  {
  }

  lemma OccurrencesSnoc(p: seq<Op>, op: Op, t: string, e: EventType)
    requires Recognised(op, t)
    ensures Occurrences(p + [op], |p| + 1, e) == Occurrences(p, |p|, e) + if Kind(op) == e then 1 else 0
  {
    hide Parse;
    OccurrencesPrefix(p, op, |p|, e);
  }

  lemma BumpHolds(s: Store, t: string, p: seq<Op>, op: Op)
    requires Holds(s, t, p) && Recognised(op, t) && !SealsTrace(Kind(op))
    requires AllRecognised(p + [op], t)
    requires Extended(s, op.ev, Kind(op), op.traceId) == Assemble(p + [op], t)
    ensures Holds(CaptureStep(s, op.ev, op.traceId).0, t, p + [op])
  {
    hide Parse, ComponentOf, Assemble, Extended, AllRecognised, Occurrences;
    var after := CaptureStep(s, op.ev, op.traceId).0;
    var longer := p + [op];
    NextIndexIs(s, t, p, Kind(op));
    forall e
      ensures (t, e) in after.counters <==> Occurrences(longer, |longer|, e) > 0
      ensures (t, e) in after.counters ==> after.counters[(t, e)] == Occurrences(longer, |longer|, e) % U32
    {
      OccurrencesSnoc(p, op, t, e);
      assert (t, e) in s.counters <==> Occurrences(p, |p|, e) > 0;
    }
  }

  lemma OtherThoughtHolds(s: Store, t: string, p: seq<Op>, op: Op)
    requires Holds(s, t, p) && op.Captured? && op.ev.thoughtId != t
    ensures Holds(CaptureStep(s, op.ev, op.traceId).0, t, p)
  {
    hide Parse, ComponentOf, Assemble, Extended, AllRecognised, Occurrences;
    var after := CaptureStep(s, op.ev, op.traceId).0;
    assert forall e :: (t, e) in after.counters <==> (t, e) in s.counters;
    assert forall e | (t, e) in s.counters :: after.counters[(t, e)] == s.counters[(t, e)];
  }

  lemma SweepHolds(clock: Clock, s: Store, t: string, p: seq<Op>, now: int, maxAgeSecs: int)
    requires Holds(s, t, p)
    ensures Holds(SweepStep(clock, s, now, maxAgeSecs), t,
      if p != [] && p[0].Captured? && Stale(clock, p[0].ev.timestamp, now, maxAgeSecs) then [] else p)
  {
    hide Parse, Occurrences, Stale;
    var after := SweepStep(clock, s, now, maxAgeSecs);
    var orphans := Orphans(clock, s, now, maxAgeSecs);
    if p != [] {
      assert Recognised(p[0], t) && s.active[t].startedAt == p[0].ev.timestamp;
    }
    if t in orphans {
      NothingHeld(after, t);
    } else {
      assert forall e :: (t, e) in after.counters <==> (t, e) in s.counters;
    }
  }

  /** The store of any run, seen from any thought, is the assembly of that thought's pending events. */
  lemma {:induction false} StoreIsHistory(clock: Clock, ops: seq<Op>, t: string)
    ensures Holds(Run(clock, ops), t, HistoryOf(clock, ops, t).pending)
  {
    hide Holds, Advance, Apply;
    if ops == [] {
      NothingHeld(EMPTY, t);
    } else {
      var n := |ops| - 1;
      StoreIsHistory(clock, ops[..n], t);
      StepHolds(clock, Run(clock, ops[..n]), ops[n], t, HistoryOf(clock, ops[..n], t));
    }
  }

  // ---- What a run seals ---------------------------------------------------------------------------------

  ghost predicate WellClosed(closed: seq<Segment>, t: string) {
    forall k | 0 <= k < |closed| :: closed[k].ops != [] && AllRecognised(closed[k].ops, t)
  }

  /** The traces of the sealed segments, in order. */
  ghost function SealedOf(closed: seq<Segment>, t: string): seq<CompleteTrace>
    requires WellClosed(closed, t)
  {
    if closed == [] then []
    else
      var last := closed[|closed| - 1];
      SealedOf(closed[..|closed| - 1], t) + if last.SealedSegment? then [SealOf(last.ops, t)] else []
  }

  /** An active trace is filed under its own thought. */
  ghost predicate Filed(s: Store) {
    forall u | u in s.active :: s.active[u].thoughtId == u
  }

  lemma {:induction false} RunFiled(clock: Clock, ops: seq<Op>)
    ensures Filed(Run(clock, ops))
  {
    hide Parse, Stale;
    if ops != [] { RunFiled(clock, ops[..|ops| - 1]); }
  }

  /** An event that seals gives the assembled trace of its segment, and no other event gives a trace. */
  lemma SealedNowIs(s: Store, op: Op, t: string, p: seq<Op>)
    requires Holds(s, t, p) && Filed(s)
    ensures Recognised(op, t) && SealsTrace(Kind(op)) ==>
      AllRecognised(p + [op], t) && SealedNow(s, op, t) == [SealOf(p + [op], t)]
    ensures !(Recognised(op, t) && SealsTrace(Kind(op))) ==> SealedNow(s, op, t) == []
  {
    hide Parse, ComponentOf, Assemble;
    if Recognised(op, t) {
      AssembleSnoc(s, t, p, op);
    } else if op.Captured? && op.ev.thoughtId != t && Parse(op.ev.eventType).Some? {
      assert Extended(s, op.ev, Kind(op), op.traceId).thoughtId == op.ev.thoughtId;
    }
  }

  /** The history's closed segments are non-empty runs of this thought's events. */
  lemma {:induction false} HistoryWellClosed(clock: Clock, ops: seq<Op>, t: string)
    ensures var h := HistoryOf(clock, ops, t);
      WellClosed(h.closed, t) && AllRecognised(h.pending, t)
  {
    hide Parse, Stale;
    if ops != [] { HistoryWellClosed(clock, ops[..|ops| - 1], t); }
  }

  lemma SealedOfSnoc(closed: seq<Segment>, last: Segment, t: string)
    requires WellClosed(closed, t) && last.ops != [] && AllRecognised(last.ops, t)
    ensures WellClosed(closed + [last], t)
    ensures SealedOf(closed + [last], t) ==
      SealedOf(closed, t) + if last.SealedSegment? then [SealOf(last.ops, t)] else []
  {
  }

  /** A run seals, for every thought, exactly the traces of its sealed segments, in order. */
  lemma {:induction false} SealedTracesAreSegments(clock: Clock, ops: seq<Op>, t: string)
    ensures WellClosed(HistoryOf(clock, ops, t).closed, t)
    ensures SealedTraces(clock, ops, t) == SealedOf(HistoryOf(clock, ops, t).closed, t)
  {
    hide Parse, Stale, Holds, SealedNow, SealOf, SealedOf, AllRecognised, WellClosed, Filed;
    HistoryWellClosed(clock, ops, t);
    if ops == [] {
      NoSegments(t);
    } else {
      var init, op := ops[..|ops| - 1], ops[|ops| - 1];
      var before, after := HistoryOf(clock, init, t), HistoryOf(clock, ops, t);
      HistoryWellClosed(clock, init, t);
      SealedTracesAreSegments(clock, init, t);
      StoreIsHistory(clock, init, t);
      RunFiled(clock, init);
      SealedNowIs(Run(clock, init), op, t, before.pending);
      if after.closed != before.closed {
        LastClosed(after.closed, t);
        SealedOfSnoc(before.closed, after.closed[|before.closed|], t);
      }
    }
  }

  lemma LastClosed(closed: seq<Segment>, t: string)
    requires WellClosed(closed, t) && closed != []
    ensures closed[|closed| - 1].ops != [] && AllRecognised(closed[|closed| - 1].ops, t)
  {
  }

  lemma NoSegments(t: string)
    ensures WellClosed([], t) && SealedOf([], t) == []
  {
  }

  // ---- Thoughts do not influence one another -------------------------------------------------------------

  /** The events of thought `t`, and every sweep. */
  function Only(ops: seq<Op>, t: string): seq<Op> {
    if ops == [] then []
    else
      var last := ops[|ops| - 1];
      Only(ops[..|ops| - 1], t) + if last.Swept? || last.ev.thoughtId == t then [last] else []
  }

  lemma {:induction false} HistoryOnly(clock: Clock, ops: seq<Op>, t: string)
    ensures HistoryOf(clock, Only(ops, t), t) == HistoryOf(clock, ops, t)
  {
    hide Parse, Stale;
    if ops != [] {
      var init, last := ops[..|ops| - 1], ops[|ops| - 1];
      HistoryOnly(clock, init, t);
      if last.Swept? || last.ev.thoughtId == t {
        assert Only(ops, t)[..|Only(ops, t)| - 1] == Only(init, t);
      } else {
        assert Only(ops, t) == Only(init, t);
      }
    }
  }

  /**
   Whatever other events are interleaved, the traces sealed for a thought, and what the store holds
   for it at the end, are those of the run of that thought's events and the sweeps alone.
   */
  lemma ThoughtsAreIndependent(clock: Clock, ops: seq<Op>, t: string)
    ensures SealedTraces(clock, ops, t) == SealedTraces(clock, Only(ops, t), t)
    ensures var together, alone := Run(clock, ops), Run(clock, Only(ops, t));
      && (t in together.active <==> t in alone.active)
      && (t in together.active ==> together.active[t] == alone.active[t])
      && (forall e :: NextIndex(together.counters, t, e) == NextIndex(alone.counters, t, e))
  {
    hide SealedTraces, SealedOf, WellClosed, HistoryOf, Run, Occurrences, AllRecognised;
    HistoryOnly(clock, ops, t);
    SealedTracesAreSegments(clock, ops, t);
    SealedTracesAreSegments(clock, Only(ops, t), t);
    StoreIsHistory(clock, ops, t);
    StoreIsHistory(clock, Only(ops, t), t);
    var p := HistoryOf(clock, ops, t).pending;
    forall e ensures NextIndex(Run(clock, ops).counters, t, e) == NextIndex(Run(clock, Only(ops, t)).counters, t, e) {
      NextIndexIs(Run(clock, ops), t, p, e);
      NextIndexIs(Run(clock, Only(ops, t)), t, p, e);
    }
  }

  // ---- No event is lost ------------------------------------------------------------------------------------

  function RecognisedOps(ops: seq<Op>, t: string): seq<Op> {
    if ops == [] then []
    else RecognisedOps(ops[..|ops| - 1], t) + if Recognised(ops[|ops| - 1], t) then [ops[|ops| - 1]] else []
  }

  function Flatten(closed: seq<Segment>): seq<Op> {
    if closed == [] then [] else Flatten(closed[..|closed| - 1]) + closed[|closed| - 1].ops
  }

  lemma FlattenSnoc(closed: seq<Segment>, last: Segment)
    ensures Flatten(closed + [last]) == Flatten(closed) + last.ops
  {
  }

  /** Sealed, purged and pending events together are the recognised events, in order, each once. */
  lemma {:induction false} EventsConserved(clock: Clock, ops: seq<Op>, t: string)
    ensures var h := HistoryOf(clock, ops, t);
      Flatten(h.closed) + h.pending == RecognisedOps(ops, t)
  {
    hide Parse, Stale;
    if ops != [] {
      var init, op := ops[..|ops| - 1], ops[|ops| - 1];
      var before, after := HistoryOf(clock, init, t), HistoryOf(clock, ops, t);
      EventsConserved(clock, init, t);
      assert Flatten(before.closed) + (before.pending + [op]) == Flatten(before.closed) + before.pending + [op];
      if after.closed != before.closed {
        FlattenSnoc(before.closed, after.closed[|before.closed|]);
      }
    }
  }

  // ---- Where ACTION_RESULT can stand -------------------------------------------------------------------------

  ghost predicate NoSealing(p: seq<Op>, t: string) {
    forall i | 0 <= i < |p| :: Recognised(p[i], t) && !SealsTrace(Kind(p[i]))
  }

  ghost predicate SealingLast(p: seq<Op>, t: string) {
    p != [] && NoSealing(p[..|p| - 1], t) && Recognised(p[|p| - 1], t) && SealsTrace(Kind(p[|p| - 1]))
  }

  /** Pending and purged events contain no ACTION_RESULT; a sealed segment has exactly one, its last. */
  lemma {:induction false} SealingStandsLast(clock: Clock, ops: seq<Op>, t: string)
    ensures var h := HistoryOf(clock, ops, t);
      && NoSealing(h.pending, t)
      && forall k | 0 <= k < |h.closed| ::
           if h.closed[k].SealedSegment? then SealingLast(h.closed[k].ops, t) else NoSealing(h.closed[k].ops, t)
  {
    hide Parse, Stale;
    if ops != [] {
      var init, op := ops[..|ops| - 1], ops[|ops| - 1];
      SealingStandsLast(clock, init, t);
      var p := HistoryOf(clock, init, t).pending;
      assert (p + [op])[..|p + [op]| - 1] == p;
    }
  }

  /**
   The invariant of every reachable store, for every thought `t`: a trace is active exactly when a
   counter of `t` exists, an event's counter is the number of its components in that trace, the
   `k`-th of them carries index `k`, and none of them is an ACTION_RESULT.
   */
  lemma ReachableStore(clock: Clock, ops: seq<Op>, t: string)
    ensures var s := Run(clock, ops);
      && (t in s.active <==> exists e :: (t, e) in s.counters)
      && (t in s.active ==>
            && s.active[t].thoughtId == t && s.active[t].completedAt == None && s.active[t].components != []
            && (forall e ::
              var n := |s.active[t].components|;
              NextIndex(s.counters, t, e) == CountKind(s.active[t].components, n, e) % 4294967296)
            && (forall i | 0 <= i < |s.active[t].components| ::
                  && s.active[t].components[i].attemptIndex ==
                    CountKind(s.active[t].components, i, s.active[t].components[i].eventType) % 4294967296
                  && !SealsTrace(s.active[t].components[i].eventType)))
  {
    hide Parse, Occurrences, Run, HistoryOf, CountKind, FirstPresent, TaskIds, Levels;
    var s, p := Run(clock, ops), HistoryOf(clock, ops, t).pending;
    StoreIsHistory(clock, ops, t);
    SealingStandsLast(clock, ops, t);
    if p != [] {
      forall n: nat, e | n <= |p| ensures CountKind(s.active[t].components, n, e) == Occurrences(p, n, e) {
        CountMatches(p, t, n, e);
      }
      forall e ensures NextIndex(s.counters, t, e) == Occurrences(p, |p|, e) % U32 {
        NextIndexIs(s, t, p, e);
      }
      LastOccurs(p, t);
    } else {
      NoOccurrences(p);
    }
  }

  /** How many of the first `n` components come from events of kind `e`. */
  function CountKind(components: seq<TraceComponent>, n: nat, e: EventType): nat
    requires n <= |components|
  {
    if n == 0 then 0 else CountKind(components, n - 1, e) + if components[n - 1].eventType == e then 1 else 0
  }

  lemma {:induction false} CountMatches(p: seq<Op>, t: string, n: nat, e: EventType)
    requires p != [] && AllRecognised(p, t) && n <= |p|
    ensures CountKind(Assemble(p, t).components, n, e) == Occurrences(p, n, e)
  {
    hide Parse, FirstPresent, TaskIds, Levels;
    if n > 0 { CountMatches(p, t, n - 1, e); }
  }

  lemma LastOccurs(p: seq<Op>, t: string)
    requires p != [] && AllRecognised(p, t)
    ensures Occurrences(p, |p|, Kind(p[|p| - 1])) > 0
  {
  }

  lemma NoOccurrences(p: seq<Op>)
    requires p == []
    ensures forall e :: Occurrences(p, |p|, e) == 0
  {
  }
}
