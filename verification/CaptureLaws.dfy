/**
 What capture, sealing and emission mean in the words of the wire: event names, JSON member names and
 the values found under them.
 */
module CaptureLaws {
  import opened Wrappers
  import opened JsonValue
  import opened Events
  import opened Partial
  import opened PartialRuns
  import opened Consent
  import opened Seal
  import opened Batch
  import opened Clients
  import opened ClientRuns

  // ---- Event names ----------------------------------------------------------------------------------

  /** A raw name is read bare or behind "ReasoningEvent.", and in no other form. */
  lemma ParseReads(raw: string, e: EventType)
    ensures Parse(raw) == Some(e) <==> raw == WireName(e) || raw == "ReasoningEvent." + WireName(e)
  {
    hide Find;
    var q := "ReasoningEvent.";
    NotQualified(e);
    if q <= raw {
      assert raw == q + raw[|q|..];
      FindReads(raw[|q|..], e);
    } else {
      FindReads(raw, e);
    }
    assert (q + WireName(e))[|q|..] == WireName(e);
  }

  lemma NotQualified(e: EventType)
    ensures !("ReasoningEvent." <= WireName(e))
  {
    var name := WireName(e);
    assert name[1] != 'e';
  }

  lemma {:induction false} FindNamed(events: seq<EventType>, bare: string)
    ensures Find(events, bare).Some? ==> WireName(Find(events, bare).value) == bare
  {
    if events != [] && WireName(events[0]) != bare { FindNamed(events[1..], bare); }
  }

  lemma {:induction false} FindIn(events: seq<EventType>, bare: string, e: EventType)
    requires e in events
    ensures Find(events, bare) == Some(e) <==> WireName(e) == bare
  {
    hide WireName;
    FindNamed(events, bare);
    if WireName(e) == bare {
      if WireName(events[0]) == bare {
        WireNameInjective(e, events[0]);
      } else {
        FindIn(events[1..], bare, e);
      }
    }
  }

  lemma FindReads(bare: string, e: EventType)
    ensures Find(ALL, bare) == Some(e) <==> bare == WireName(e)
  {
    hide Find, WireName;
    assert e in ALL by { Listed(e); }
    FindIn(ALL, bare, e);
  }

  lemma Listed(e: EventType)
    ensures e in ALL
  {
    assert ALL[0] == ThoughtStart && ALL[1] == SnapshotAndContext && ALL[2] == DmaResults && ALL[3] == IdmaResult;
    assert ALL[4] == AspdmaResult && ALL[5] == TsaspdmaResult && ALL[6] == VerbSecondPassResult;
    assert ALL[7] == ConscienceResult && ALL[8] == ActionResult && ALL[9] == LlmCall && ALL[10] == DeferralRouted;
    assert ALL[11] == DeferralReceived && ALL[12] == DeferralResolved && ALL[13] == GratitudeSignaled;
    assert ALL[14] == CreditGenerated;
  }

  /** A trace is sealed exactly by an event named ACTION_RESULT, and an event of no known name changes nothing. */
  lemma SealsExactly(s: Store, ev: InboundEvent, traceId: string)
    ensures CaptureStep(s, ev, traceId).1.Sealed? <==>
      ev.eventType == "ACTION_RESULT" || ev.eventType == "ReasoningEvent.ACTION_RESULT"
    ensures CaptureStep(s, ev, traceId).1.UnknownEvent? <==>
      forall e :: ev.eventType != WireName(e) && ev.eventType != "ReasoningEvent." + WireName(e)
    ensures CaptureStep(s, ev, traceId).1.UnknownEvent? ==> CaptureStep(s, ev, traceId).0 == s
  {
    hide Parse, WireName, Extended;
    forall e ensures Parse(ev.eventType) == Some(e) <==>
      ev.eventType == WireName(e) || ev.eventType == "ReasoningEvent." + WireName(e)
    {
      ParseReads(ev.eventType, e);
    }
    assert WireName(ActionResult) == "ACTION_RESULT" by { ActionName(); }
    match Parse(ev.eventType)
    case Some(e) => assert ev.eventType == WireName(e) || ev.eventType == "ReasoningEvent." + WireName(e);
    case None =>
  }

  lemma ActionName()
    ensures WireName(ActionResult) == "ACTION_RESULT"
  {
  }

  /** "First non-absent" means the value at the first position that has one. */
  lemma {:induction false} FirstPresentReads(values: seq<Option<string>>, x: string)
    ensures FirstPresent(values) == Some(x) <==>
      exists i :: 0 <= i < |values| && values[i] == Some(x) && forall j | 0 <= j < i :: values[j] == None
    ensures FirstPresent(values) == None <==> forall i | 0 <= i < |values| :: values[i] == None
  {
    if values != [] && values[0].None? {
      FirstPresentReads(values[1..], x);
      if i :| 0 <= i < |values[1..]| && values[1..][i] == Some(x) && forall j | 0 <= j < i :: values[1..][j] == None {
        assert values[i + 1] == Some(x);
      }
      if i :| 0 <= i < |values| && values[i] == Some(x) && forall j | 0 <= j < i :: values[j] == None {
        assert values[1..][i - 1] == Some(x);
      }
    }
  }

  // ---- strip_empty ----------------------------------------------------------------------------------

  /** Stripping an array strips its pieces. */
  lemma {:induction false} StripAppends(a: seq<Json>, b: seq<Json>)
    ensures StripItems(a + b) == StripItems(a) + StripItems(b)
  {
    hide Strip;
    if a == [] {
      assert a + b == b;
    } else {
      StripAppends(a[1..], b);
      assert (a + b)[1..] == a[1..] + b && (a + b)[0] == a[0];
    }
  }

  /**
   Of an array exactly the nulls go: item by item, a null leaves nothing and anything else leaves
   its stripped form, even if that is empty.
   */
  lemma StripArrays(a: seq<Json>, item: Json, b: seq<Json>)
    ensures Strip(Arr(a + [item] + b)) ==
      Arr(Strip(Arr(a)).items + (if item == Null then [] else [Strip(item)]) + Strip(Arr(b)).items)
    ensures Strip(Arr([])) == Arr([])
  {
    StripAppends(a + [item], b);
    StripAppends(a, [item]);
  }

  /** Of an object exactly the members whose stripped value is null, "", [] or {} go. */
  lemma StripObjects(m: map<string, Json>, k: string)
    ensures Strip(Obj(m)).Get(k) ==
      if k in m && Strip(m[k]) !in {Null, Str(""), Arr([]), Obj(map[])} then Some(Strip(m[k])) else None
    ensures Strip(Obj(m)).Obj?
  {
  }

  /** Anything else is kept: false and 0 too, and at the top even the empty forms. */
  lemma StripScalars(v: Json)
    requires !v.Arr? && !v.Obj?
    ensures Strip(v) == v
  {
  }

  // ---- The signed component -------------------------------------------------------------------------

  /** The data that are signed: the component's own members, and the attempt index over any of that name. */
  lemma DataReads(c: TraceComponent, k: string)
    ensures DataWithAttemptIndex(c).Get(k) ==
      if k == "attempt_index" then Some(Num(c.attemptIndex as real)) else c.data.Get(k)
  {
  }

  /** A wrapper field that is blank is dropped like any other. */
  function Unless(text: string): Option<Json> {
    if text == "" then None else Some(Str(text))
  }

  lemma ComponentReads(trace: CompleteTrace, c: TraceComponent)
    ensures var signed := SignedComponent(trace, c);
      && signed.Get("agent_id_hash") == Unless(if c.agentIdHash == "" then trace.agentIdHash else c.agentIdHash)
      && signed.Get("component_type") == Some(Str(ComponentName(c.componentType)))
      && signed.Get("data") == Some(Strip(DataWithAttemptIndex(c)))
      && signed.Get("event_type") == Some(Str(WireName(c.eventType)))
      && signed.Get("timestamp") == Unless(c.timestamp)
      && (signed.Obj? && forall k | k in signed.members ::
            k in {"agent_id_hash", "component_type", "data", "event_type", "timestamp"})
  {
    var m := ComponentMembers(trace, c);
    StripObjects(m, "agent_id_hash");
    StripObjects(m, "component_type");
    StripObjects(m, "data");
    StripObjects(m, "event_type");
    StripObjects(m, "timestamp");
    StringsStay(m);
    hide DataWithAttemptIndex, WireName, ComponentName, Strip;
    DataKept(c);
    assert WireName(c.eventType) != "" && ComponentName(c.componentType) != "" by { NamesNotBlank(c); }
  }

  lemma StringsStay(m: map<string, Json>)
    ensures forall s: string :: Strip(Str(s)) == Str(s)
    ensures forall k | k in Strip(Obj(m)).members :: k in m
  {
  }

  lemma NamesNotBlank(c: TraceComponent)
    ensures WireName(c.eventType) != "" && ComponentName(c.componentType) != ""
  {
  }

  // ---- The batch ------------------------------------------------------------------------------------

  lemma EnvelopeReads(traces: seq<CompleteTrace>, provenance: Provenance)
    ensures var batch := BatchEnvelope(traces, provenance);
      && batch.Get("batch_timestamp") == Some(Str(provenance.batchTimestamp))
      && batch.Get("consent_timestamp") == Some(Str(provenance.consentTimestamp))
      && batch.Get("trace_level") == Some(Str(provenance.traceLevel))
      && batch.Get("trace_schema_version") == Some(Str(provenance.traceSchemaVersion))
      && batch.Get("correlation_metadata") == provenance.correlationMetadata
      && batch.Get("events") == Some(Arr(BatchEvents(traces, provenance)))
      && (batch.Obj? && forall k | k in batch.members ::
            k in {"batch_timestamp", "consent_timestamp", "trace_level", "trace_schema_version",
                  "correlation_metadata", "events"})
  {
    hide BatchEvents;
  }

  lemma EventReads(trace: CompleteTrace, provenance: Provenance)
    ensures BatchEvent(trace, provenance).Get("event_type") == Some(Str("complete_trace"))
    ensures BatchEvent(trace, provenance).Get("trace_level") == Some(Str(provenance.traceLevel))
    ensures BatchEvent(trace, provenance).Get("trace") == Some(WireTrace(trace))
    ensures BatchEvent(trace, provenance).Obj?
         && BatchEvent(trace, provenance).members.Keys == {"event_type", "trace_level", "trace"}
  {
    hide WireTrace;
  }

  // ---- Emission -------------------------------------------------------------------------------------

  /** The gate in the words of its inputs. */
  lemma GateReads(config: Config, directory: Directory, key: string)
    ensures Gate(config, None, directory) == Success(ByConfig(config.consentTimestamp))
    ensures directory.Failure? ==>
      Gate(config, Some(key), directory) == Failure(ConsentUnreadable(directory.error))
    ensures directory.Success? ==>
      (forall row :: Newest(directory.value, row) ==>
        Gate(config, Some(key), directory) == Success(
          if row.kind in {"scores", "supersedes"} then CegGrant(row.assertedAt)
          else if row.kind in {"withdraws", "recants"} then Withdrawn(row.assertedAt)
          else ByConfig(config.consentTimestamp)))
    ensures directory.Success? && (forall row | row in directory.value :: !OnDimension(row)) ==>
      Gate(config, Some(key), directory) == Success(ByConfig(config.consentTimestamp))
  {
    hide Newest, Grant;
    if directory.Success? {
      forall row | Newest(directory.value, row)
        ensures Gate(config, Some(key), directory) == Success(
          if row.kind in {"scores", "supersedes"} then CegGrant(row.assertedAt)
          else if row.kind in {"withdraws", "recants"} then Withdrawn(row.assertedAt)
          else ByConfig(config.consentTimestamp))
      {
        NewestRowDecides(directory.value, row, config.consentTimestamp);
      }
      if forall row | row in directory.value :: !OnDimension(row) {
        NoRowConfigDecides(directory.value, config.consentTimestamp);
      }
    }
  }

  /** What the caller is told of a trace that is sealed but not emitted. */
  lemma BlockedReads(
    config: Config, signer: Signer, gate: Result<Resolution, ClientError>, s: Store, ev: InboundEvent, now: string)
    requires CaptureStep(s, ev, ev.thoughtId).1.Sealed?
    ensures var told := EventStep(config, signer, gate, s, ev, now).1;
      && (gate.Failure? ==> told == Failure(gate.error))
      && (gate.Success? && gate.value.Withdrawn? ==> told == Success(ConsentBlocked("withdrawn")))
      && (gate.Success? && gate.value.NoConsent? ==> told == Success(ConsentBlocked("no_consent")))
  {
    hide CaptureStep, EmissionOf;
  }

  /**
   The batch of an emission: stamped with the moment and the configuration, under the time of the
   grant or the configured timestamp, around one trace that keeps its own level and profile and takes
   the configured ones where it has none.
   */
  lemma EmissionReads(
    config: Config, signer: Signer, gate: Result<Resolution, ClientError>, s: Store, ev: InboundEvent, now: string)
    returns (trace: CompleteTrace, event: Json, wire: Json)
    requires IsEmission(EventStep(config, signer, gate, s, ev, now).1)
    ensures CaptureStep(s, ev, ev.thoughtId).1 == Sealed(trace) && gate.Success?
    ensures var batch := EventStep(config, signer, gate, s, ev, now).1.value.batch;
      && batch.Get("batch_timestamp") == Some(Str(now))
      && (match gate.value
          case CegGrant(at) => batch.Get("consent_timestamp") == Some(Str(config.rfc3339(at)))
          case ConfigFallback(timestamp) => batch.Get("consent_timestamp") == Some(Str(timestamp))
          case _ => false)
      && batch.Get("trace_level") == Some(Str(config.traceLevel))
      && batch.Get("trace_schema_version") == Some(Str(config.traceSchemaVersion))
      && batch.Get("correlation_metadata") ==
           (if config.correlation.Some? && !config.correlation.value.isEmpty
            then Some(config.correlation.value.value) else None)
      && batch.Get("events") == Some(Arr([event]))
    ensures event.Get("event_type") == Some(Str("complete_trace")) && event.Get("trace") == Some(wire)
    ensures wire.Get("trace_id") == Some(Str(trace.traceId))
    ensures wire.Get("trace_level") ==
      Some(Str(if trace.traceLevel.Some? then trace.traceLevel.value else config.traceLevel))
    ensures wire.Get("deployment_profile") ==
      if trace.deploymentProfile.Some? then trace.deploymentProfile else config.deploymentProfile
    ensures wire.Get("signature_key_id") == Some(Str(signer.keyId))
  {
    hide CaptureStep, CanonicalEnvelope, BatchEnvelope, BatchEvent, BatchEvents, EventStep, WireTrace, CanonicalBytes;
    var signed, provenance := EmittedIsSigned(config, signer, gate, s, ev, now);
    trace := CaptureStep(s, ev, ev.thoughtId).1.trace;
    SignedFields(config, signer, trace, signed);
    event := BatchEvent(signed, provenance);
    wire := WireTrace(signed);
    EnvelopeReads([signed], provenance);
    EventReads(signed, provenance);
    WireReads(signed);
    assert BatchEvents([signed], provenance) == [event];
  }

  lemma SignedFields(config: Config, signer: Signer, trace: CompleteTrace, signed: CompleteTrace)
    requires SignedTrace(signer, Stamped(config, trace)) == Success(signed)
    ensures signed.traceId == trace.traceId
    ensures signed.traceLevel == Some(if trace.traceLevel.Some? then trace.traceLevel.value else config.traceLevel)
    ensures signed.deploymentProfile ==
      if trace.deploymentProfile.Some? then trace.deploymentProfile else config.deploymentProfile
    ensures signed.signatureKeyId == Some(signer.keyId)
  {
    hide CanonicalBytes;
  }

  /** The wire trace, field by field. */
  lemma WireReads(trace: CompleteTrace)
    ensures var wire := WireTrace(trace);
      && wire.Get("trace_id") == Some(Str(trace.traceId))
      && wire.Get("thought_id") == Some(Str(trace.thoughtId))
      && wire.Get("task_id") == Some(if trace.taskId.Some? then Str(trace.taskId.value) else Null)
      && wire.Get("agent_id_hash") == Some(Str(trace.agentIdHash))
      && wire.Get("started_at") == Some(Str(trace.startedAt))
      && wire.Get("completed_at") == Some(if trace.completedAt.Some? then Str(trace.completedAt.value) else Null)
      && wire.Get("trace_level") == Some(if trace.traceLevel.Some? then Str(trace.traceLevel.value) else Null)
      && wire.Get("trace_schema_version") == Some(Str(trace.traceSchemaVersion))
      && wire.Get("deployment_profile") == trace.deploymentProfile
      && wire.Get("signature") == Some(if trace.signature.Some? then Str(trace.signature.value) else Null)
      && wire.Get("signature_key_id") ==
           Some(if trace.signatureKeyId.Some? then Str(trace.signatureKeyId.value) else Null)
      && wire.Get("components") == Some(Arr(SignedComponents(trace)))
  {
    hide SignedComponents, CanonicalEnvelope, WireTrace;
    EnvelopeFields(trace);
    EnvelopeIsObject(trace);
    WireMember(trace, "trace_id");
    WireMember(trace, "thought_id");
    WireMember(trace, "task_id");
    WireMember(trace, "agent_id_hash");
    WireMember(trace, "started_at");
    WireMember(trace, "completed_at");
    WireMember(trace, "trace_level");
    WireMember(trace, "trace_schema_version");
    WireMember(trace, "deployment_profile");
    WireMember(trace, "signature");
    WireMember(trace, "signature_key_id");
    WireMember(trace, "components");
  }

  lemma WireMember(trace: CompleteTrace, k: string)
    ensures WireTrace(trace).Get(k) ==
      if k == "signature" then Some(OptStr(trace.signature))
      else if k == "signature_key_id" then Some(OptStr(trace.signatureKeyId))
      else CanonicalEnvelope(trace).Get(k)
  {
    hide CanonicalEnvelope;
    EnvelopeIsObject(trace);
  }

  /** The tee counter moves on by one for every emission of a client that tees, wraps at 2^64, and never otherwise. */
  lemma TeeReads(config: Config, teeSeq: nat, r: Result<Outcome, ClientError>)
    requires teeSeq < 18446744073709551616
    ensures TeeAfter(config, teeSeq, r) ==
      if !config.tee || !IsEmission(r) then teeSeq
      else if teeSeq == 18446744073709551615 then 0
      else teeSeq + 1
  {
  }

  /** An age limit past the signed range is cut to 2^63 - 1. */
  lemma ClampReads(maxAgeSecs: nat)
    ensures Clamped(maxAgeSecs) == if maxAgeSecs <= 9223372036854775807 then maxAgeSecs else 9223372036854775807
  {
  }

  // ---- Names and fresh traces -----------------------------------------------------------------------

  /** The wire name of an event, and the name of the component it contributes to. */
  predicate Named(e: EventType, name: string, component: string) {
    WireName(e) == name && ComponentName(ComponentOf(e)) == component
  }

  lemma NamesRead(e: EventType)
    ensures match e
      case ThoughtStart => Named(e, "THOUGHT_START", "observation")
      case SnapshotAndContext => Named(e, "SNAPSHOT_AND_CONTEXT", "context")
      case DmaResults => Named(e, "DMA_RESULTS", "rationale")
      case IdmaResult => Named(e, "IDMA_RESULT", "rationale")
      case AspdmaResult => Named(e, "ASPDMA_RESULT", "rationale")
      case TsaspdmaResult => Named(e, "TSASPDMA_RESULT", "rationale")
      case VerbSecondPassResult => Named(e, "VERB_SECOND_PASS_RESULT", "verb_second_pass")
      case ConscienceResult => Named(e, "CONSCIENCE_RESULT", "conscience")
      case ActionResult => Named(e, "ACTION_RESULT", "action")
      case LlmCall => Named(e, "LLM_CALL", "llm_call")
      case DeferralRouted => Named(e, "DEFERRAL_ROUTED", "deferral_routed")
      case DeferralReceived => Named(e, "DEFERRAL_RECEIVED", "deferral_received")
      case DeferralResolved => Named(e, "DEFERRAL_RESOLVED", "deferral_resolved")
      case GratitudeSignaled => Named(e, "GRATITUDE_SIGNALED", "gratitude_signaled")
      case CreditGenerated => Named(e, "CREDIT_GENERATED", "credit_generated")
  {
    match e {
      case ThoughtStart =>
      case SnapshotAndContext =>
      case DmaResults =>
      case IdmaResult =>
      case AspdmaResult =>
      case TsaspdmaResult =>
      case VerbSecondPassResult =>
      case ConscienceResult =>
      case ActionResult =>
      case LlmCall =>
      case DeferralRouted =>
      case DeferralReceived =>
      case DeferralResolved =>
      case GratitudeSignaled =>
      case CreditGenerated =>
    }
  }

  /** A first event opens a trace of one component, numbered 0, that starts when the event happened. */
  lemma FreshReads(s: Store, ev: InboundEvent, traceId: string)
    requires ev.thoughtId !in s.active && CaptureStep(s, ev, traceId).1.Opened?
    ensures ev.thoughtId in CaptureStep(s, ev, traceId).0.active
    ensures var trace := CaptureStep(s, ev, traceId).0.active[ev.thoughtId];
      && trace.traceId == traceId && trace.thoughtId == ev.thoughtId
      && trace.taskId == ev.taskId && trace.traceLevel == ev.traceLevel
      && trace.agentIdHash == ev.agentIdHash && trace.startedAt == ev.timestamp && trace.completedAt == None
      && trace.traceSchemaVersion == "3.0.0" && trace.deploymentProfile == None
      && trace.signature == None && trace.signatureKeyId == None
      && |trace.components| == 1 && trace.components[0].data == ev.data
      && trace.components[0].timestamp == ev.timestamp && trace.components[0].agentIdHash == ev.agentIdHash
      && ev.eventType in {WireName(trace.components[0].eventType),
                          "ReasoningEvent." + WireName(trace.components[0].eventType)}
      && trace.components[0].componentType == ComponentOf(trace.components[0].eventType)
  {
    hide Parse, WireName, ComponentOf;
    var e := Parse(ev.eventType).value;
    ParseReads(ev.eventType, e);
  }

  /** A later event only appends: one component behind the others, and the first task id and level that come. */
  predicate Grown(before: CompleteTrace, after: CompleteTrace, ev: InboundEvent) {
    && |after.components| == |before.components| + 1
    && after.components[..|before.components|] == before.components
    && after.components[|before.components|].data == ev.data
    && after.components[|before.components|].timestamp == ev.timestamp
    && after.components[|before.components|].agentIdHash == ev.agentIdHash
    && after.taskId == (if before.taskId.Some? then before.taskId else ev.taskId)
    && after.traceLevel == (if before.traceLevel.Some? then before.traceLevel else ev.traceLevel)
    && (after.traceId, after.thoughtId, after.agentIdHash, after.startedAt, after.traceSchemaVersion)
       == (before.traceId, before.thoughtId, before.agentIdHash, before.startedAt, before.traceSchemaVersion)
  }

  /** An event on an open trace appends to it; one that seals also completes it, at its own time, and closes it. */
  lemma LaterReads(s: Store, ev: InboundEvent, traceId: string)
    requires ev.thoughtId in s.active && !CaptureStep(s, ev, traceId).1.UnknownEvent?
    ensures var (after, outcome) := CaptureStep(s, ev, traceId);
      if outcome.Sealed? then
        && Grown(s.active[ev.thoughtId], outcome.trace, ev) && outcome.trace.completedAt == Some(ev.timestamp)
        && ev.thoughtId !in after.active && (forall e :: (ev.thoughtId, e) !in after.counters)
      else outcome == Appended && ev.thoughtId in after.active
    ensures var (after, outcome) := CaptureStep(s, ev, traceId);
      outcome == Appended && ev.thoughtId in after.active ==>
        && Grown(s.active[ev.thoughtId], after.active[ev.thoughtId], ev)
        && after.active[ev.thoughtId].completedAt == s.active[ev.thoughtId].completedAt
  {
    hide Parse, ComponentOf;
  }

  /** Where the components of kind `e` stand among the first `n`. */
  function Standing(components: seq<TraceComponent>, n: nat, e: EventType): set<nat>
    requires n <= |components|
  {
    set j: nat | j < n && components[j].eventType == e
  }

  lemma NextStanding(components: seq<TraceComponent>, n: nat, e: EventType)
    requires n < |components|
    ensures Standing(components, n + 1, e) ==
      Standing(components, n, e) + if components[n].eventType == e then {n} else {}
    ensures n !in Standing(components, n, e)
  {
  }

  lemma NoneStanding(components: seq<TraceComponent>, e: EventType)
    ensures Standing(components, 0, e) == {}
  {
  }

  /** The occurrences that number a component are those of its own kind before it. */
  lemma {:induction false} CountReads(components: seq<TraceComponent>, n: nat, e: EventType)
    requires n <= |components|
    ensures CountKind(components, n, e) == |Standing(components, n, e)|
  {
    hide Standing;
    if n == 0 {
      NoneStanding(components, e);
    } else {
      CountReads(components, n - 1, e);
      NextStanding(components, n - 1, e);
    }
  }

  /** The engine gets the batch of an emission and nothing else; if it refuses, the caller gets its message. */
  lemma AnswerReads(r: Result<Outcome, ClientError>, answer: Answer)
    ensures (r.Success? && r.value.Emitted?) ==> Handed(r) == [r.value.batch]
    ensures !(r.Success? && r.value.Emitted?) ==> Handed(r) == [] && Told(r, answer) == r
    ensures r.Success? && r.value.Emitted? && answer.Success? ==> Told(r, answer) == r
    ensures r.Success? && r.value.Emitted? && answer.Failure? ==>
      Told(r, answer) == Failure(PersistFailed(answer.error))
  {
  }
}
