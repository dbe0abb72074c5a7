/** Assembling the events of many thoughts into traces (capture/partial.rs). */
module Partial {
  import opened Wrappers
  import opened JsonValue
  import opened Events

  const TRACE_SCHEMA_VERSION := "3.0.0"

  /** Attempt counters are 32-bit and wrap in a release build. */
  const U32: int := 0x1_0000_0000

  datatype TraceComponent = TraceComponent(
    componentType: ComponentType,
    eventType: EventType,
    timestamp: string,
    attemptIndex: nat,
    data: Json,
    agentIdHash: string)

  datatype CompleteTrace = CompleteTrace(
    traceId: string,
    thoughtId: string,
    taskId: Option<string>,
    agentIdHash: string,
    startedAt: string,
    completedAt: Option<string>,
    components: seq<TraceComponent>,
    signature: Option<string>,
    signatureKeyId: Option<string>,
    traceLevel: Option<string>,
    traceSchemaVersion: string,
    deploymentProfile: Option<Json>)

  datatype InboundEvent = InboundEvent(
    eventType: string,
    thoughtId: string,
    taskId: Option<string>,
    agentIdHash: string,
    timestamp: string,
    traceLevel: Option<string>,
    data: Json)

  datatype CaptureOutcome =
    | Opened
    | Appended
    | Sealed(trace: CompleteTrace)
    | UnknownEvent(raw: string)

  /** The next attempt index of each event type of each thought. */
  type Counters = map<(string, EventType), nat>

  datatype Store = Store(active: map<string, CompleteTrace>, counters: Counters)

  const EMPTY := Store(map[], map[])

  // ---- capture ----------------------------------------------------------------------------------

  function OrElse<T>(a: Option<T>, b: Option<T>): Option<T> {
    if a.Some? then a else b
  }

  function NextIndex(counters: Counters, thought: string, e: EventType): nat {
    if (thought, e) in counters then counters[(thought, e)] else 0
  }

  function WithoutThoughts(counters: Counters, thoughts: set<string>): Counters {
    map key | key in counters && key.0 !in thoughts :: counters[key]
  }

  function Fresh(ev: InboundEvent, traceId: string): CompleteTrace {
    CompleteTrace(traceId, ev.thoughtId, ev.taskId, ev.agentIdHash, ev.timestamp, None, [], None, None,
                  ev.traceLevel, TRACE_SCHEMA_VERSION, None)
  }

  /** The trace of `ev`'s thought once `ev` has been added to it. */
  function Extended(s: Store, ev: InboundEvent, e: EventType, traceId: string): CompleteTrace {
    var trace := if ev.thoughtId in s.active then s.active[ev.thoughtId] else Fresh(ev, traceId);
    var component := TraceComponent(ComponentOf(e), e, ev.timestamp, NextIndex(s.counters, ev.thoughtId, e),
      ev.data, ev.agentIdHash);
    trace.(taskId := OrElse(trace.taskId, ev.taskId),
           traceLevel := OrElse(trace.traceLevel, ev.traceLevel),
           components := trace.components + [component])
  }

  function CaptureStep(s: Store, ev: InboundEvent, traceId: string): (Store, CaptureOutcome) {
    match Parse(ev.eventType)
    case None => (s, UnknownEvent(ev.eventType))
    case Some(e) =>
      var trace := Extended(s, ev, e, traceId);
      if SealsTrace(e) then
        (Store(s.active - {ev.thoughtId}, WithoutThoughts(s.counters, {ev.thoughtId})),
         Sealed(trace.(completedAt := Some(ev.timestamp))))
      else
        (Store(s.active[ev.thoughtId := trace],
               s.counters[(ev.thoughtId, e) := (NextIndex(s.counters, ev.thoughtId, e) + 1) % U32]),
         if ev.thoughtId in s.active then Appended else Opened)
  }

  // ---- orphan_sweep -------------------------------------------------------------------------------

  /** Timestamps as nanoseconds; a string that is not a timestamp has none. */
  type Clock = string -> Option<int>

  /** Whole seconds of a duration, truncated toward zero. */
  function WholeSeconds(nanos: int): int {
    if nanos >= 0 then nanos / 1_000_000_000 else -((-nanos) / 1_000_000_000)
  }

  predicate Stale(clock: Clock, startedAt: string, now: int, maxAgeSecs: int) {
    match clock(startedAt)
    case Some(started) => WholeSeconds(now - started) > maxAgeSecs
    case None => true
  }

  function Orphans(clock: Clock, s: Store, now: int, maxAgeSecs: int): set<string> {
    set t | t in s.active && Stale(clock, s.active[t].startedAt, now, maxAgeSecs)
  }

  function SweepStep(clock: Clock, s: Store, now: int, maxAgeSecs: int): Store {
    var orphans := Orphans(clock, s, now, maxAgeSecs);
    Store(s.active - orphans, WithoutThoughts(s.counters, orphans))
  }

  /**
   A trace has outlived the limit, in nanoseconds.  Ages are cut to whole seconds, toward zero, before
   they are compared: at a limit of `m` seconds a trace goes at `m + 1` seconds, and at a negative
   limit as soon as it is less far in the future than that.
   */
  predicate Expired(clock: Clock, startedAt: string, now: int, maxAgeSecs: int) {
    match clock(startedAt)
    case Some(started) =>
      if maxAgeSecs >= 0 then now - started >= (maxAgeSecs + 1) * 1_000_000_000
      else now - started > maxAgeSecs * 1_000_000_000
    case None => true
  }

  lemma StaleIsExpired(clock: Clock, startedAt: string, now: int, maxAgeSecs: int)
    ensures Stale(clock, startedAt, now, maxAgeSecs) <==> Expired(clock, startedAt, now, maxAgeSecs)
  {
  }

  lemma SweepStepIs(clock: Clock, s: Store, now: int, maxAgeSecs: int)
    ensures var orphans := Orphans(clock, s, now, maxAgeSecs);
      && orphans <= s.active.Keys
      && SweepStep(clock, s, now, maxAgeSecs) == Store(s.active - orphans, WithoutThoughts(s.counters, orphans))
  {
  }

  lemma Moved(done: set<string>, todo: set<string>, t: string)
    requires t in todo
    ensures (done + {t}) + (todo - {t}) == done + todo && |todo - {t}| < |todo|
  {
  }

  lemma MoreRemoved(active: map<string, CompleteTrace>, done: set<string>, t: string)
    ensures active - done - {t} == active - (done + {t})
  {
  }

  /** A sweep removes exactly the expired traces, with all their counters, and leaves the others alone. */
  lemma SweptIff(clock: Clock, s: Store, now: int, maxAgeSecs: int)
    ensures var after := SweepStep(clock, s, now, maxAgeSecs);
      && (forall t :: t in after.active <==> t in s.active && !Expired(clock, s.active[t].startedAt, now, maxAgeSecs))
      && (forall t | t in after.active :: after.active[t] == s.active[t])
      && (forall key :: key in after.counters <==>
            key in s.counters && !(key.0 in s.active && Expired(clock, s.active[key.0].startedAt, now, maxAgeSecs)))
      && (forall key | key in after.counters :: after.counters[key] == s.counters[key])
  {
    hide Stale, Expired;
    forall t | t in s.active
      ensures Stale(clock, s.active[t].startedAt, now, maxAgeSecs)
         <==> Expired(clock, s.active[t].startedAt, now, maxAgeSecs)
    {
      StaleIsExpired(clock, s.active[t].startedAt, now, maxAgeSecs);
    }
  }

  lemma WithoutMore(counters: Counters, a: set<string>, b: set<string>)
    ensures WithoutThoughts(WithoutThoughts(counters, a), b) == WithoutThoughts(counters, a + b)
  {
  }

  lemma WithoutNone(counters: Counters)
    ensures WithoutThoughts(counters, {}) == counters
  {
  }

  lemma WithoutBumped(counters: Counters, thought: string, e: EventType, n: nat)
    ensures WithoutThoughts(counters[(thought, e) := n], {thought}) == WithoutThoughts(counters, {thought})
  {
  }

  lemma RemovedCount(before: map<string, CompleteTrace>, after: map<string, CompleteTrace>, gone: set<string>)
    requires gone <= before.Keys && after == before - gone
    ensures |before| - |after| == |gone|
  {
  }

  // ---- The store ------------------------------------------------------------------------------------

  class PartialTraceStore {
    var active: map<string, CompleteTrace>
    var attemptCounters: Counters

    function State(): Store
      reads this
    {
      Store(active, attemptCounters)
    }

    constructor ()
      ensures State() == EMPTY
    {
      active, attemptCounters := map[], map[];
    }

    method Capture(ev: InboundEvent, traceIdForNew: string) returns (outcome: CaptureOutcome)
      modifies this
      ensures (State(), outcome) == CaptureStep(old(State()), ev, traceIdForNew)
    {
      hide Find, ComponentOf, WithoutThoughts;
      var parsed := Parse(ev.eventType);
      if parsed.None? {
        return UnknownEvent(ev.eventType);
      }
      var e := parsed.value;
      var key := (ev.thoughtId, e);
      var attemptIndex := NextIndex(attemptCounters, ev.thoughtId, e);
      attemptCounters := attemptCounters[key := (attemptIndex + 1) % U32];

      var component := TraceComponent(ComponentOf(e), e, ev.timestamp, attemptIndex, ev.data, ev.agentIdHash);
      var isNew := ev.thoughtId !in active;
      if isNew {
        active := active[ev.thoughtId := Fresh(ev, traceIdForNew)];
      }
      var trace := active[ev.thoughtId];
      if trace.taskId.None? {
        trace := trace.(taskId := ev.taskId);
      }
      if trace.traceLevel.None? {
        trace := trace.(traceLevel := ev.traceLevel);
      }
      trace := trace.(components := trace.components + [component]);
      active := active[ev.thoughtId := trace];

      if SealsTrace(e) {
        WithoutBumped(old(attemptCounters), ev.thoughtId, e, (attemptIndex + 1) % U32);
        attemptCounters := WithoutThoughts(attemptCounters, {ev.thoughtId});
        active := active - {ev.thoughtId};
        assert active == old(active) - {ev.thoughtId};
        return Sealed(trace.(completedAt := Some(ev.timestamp)));
      }
      assert active == old(active)[ev.thoughtId := trace];
      outcome := if isNew then Opened else Appended;
    }

    method OrphanSweep(clock: Clock, now: int, maxAgeSecs: int) returns (purged: nat)
      modifies this
      ensures State() == SweepStep(clock, old(State()), now, maxAgeSecs)
      ensures purged == |Orphans(clock, old(State()), now, maxAgeSecs)|
      ensures forall t ::
        t in active <==> t in old(active) && !Expired(clock, old(active)[t].startedAt, now, maxAgeSecs)
    {
      hide Orphans, SweepStep, Expired, WithoutThoughts;
      ghost var first := State();
      SweepStepIs(clock, first, now, maxAgeSecs);
      var before := |active|;
      var todo := Orphans(clock, State(), now, maxAgeSecs);
      ghost var orphans := todo;
      ghost var done: set<string> := {};
      WithoutNone(attemptCounters);
      assert active == old(active) - done;
      while todo != {}
        invariant orphans == done + todo
        invariant active == old(active) - done
        invariant attemptCounters == WithoutThoughts(old(attemptCounters), done)
        decreases |todo|
      {
        var t :| t in todo;
        WithoutMore(old(attemptCounters), done, {t});
        MoreRemoved(old(active), done, t);
        active := active - {t};
        attemptCounters := WithoutThoughts(attemptCounters, {t});
        Moved(done, todo, t);
        todo, done := todo - {t}, done + {t};
      }
      assert done == orphans;
      RemovedCount(old(active), active, orphans);
      purged := before - |active|;
      SweptIff(clock, first, now, maxAgeSecs);
    }
  }
}
