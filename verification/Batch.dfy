/** Wrapping signed traces into the outbound batch envelope (capture/batch.rs). */
module Batch {
  import opened Wrappers
  import opened JsonValue
  import opened Partial
  import opened Seal

  datatype Provenance = Provenance(
    batchTimestamp: string,
    consentTimestamp: string,
    traceLevel: string,
    traceSchemaVersion: string,
    correlationMetadata: Option<Json>)

  datatype BatchError = EmptyBatch | UnsignedTrace(traceId: string)

  predicate Unsigned(trace: CompleteTrace) {
    trace.signature.None? || trace.signatureKeyId.None?
  }

  predicate AllSigned(traces: seq<CompleteTrace>) {
    forall k | 0 <= k < |traces| :: !Unsigned(traces[k])
  }

  function BatchEvent(trace: CompleteTrace, provenance: Provenance): Json {
    Obj(map[
      "event_type" := Str("complete_trace"),
      "trace_level" := Str(provenance.traceLevel),
      "trace" := WireTrace(trace)])
  }

  function BatchEvents(traces: seq<CompleteTrace>, provenance: Provenance): (events: seq<Json>)
    ensures |events| == |traces|
    ensures forall i | 0 <= i < |traces| :: events[i] == BatchEvent(traces[i], provenance)
  {
    seq(|traces|, i requires 0 <= i < |traces| => BatchEvent(traces[i], provenance))
  }

  function BatchEnvelope(traces: seq<CompleteTrace>, provenance: Provenance): Json {
    var fields := map[
      "events" := Arr(BatchEvents(traces, provenance)),
      "batch_timestamp" := Str(provenance.batchTimestamp),
      "consent_timestamp" := Str(provenance.consentTimestamp),
      "trace_level" := Str(provenance.traceLevel),
      "trace_schema_version" := Str(provenance.traceSchemaVersion)];
    Obj(match provenance.correlationMetadata
        case Some(metadata) => fields["correlation_metadata" := metadata]
        case None => fields)
  }

  /** Build the batch; the first unsigned trace, or the lack of any trace, refuses it. */
  method BuildBatch(traces: seq<CompleteTrace>, provenance: Provenance) returns (r: Result<Json, BatchError>)
    ensures r == Failure(EmptyBatch) <==> traces == []
    ensures r.Failure? && r.error.UnsignedTrace? ==>
      exists k :: 0 <= k < |traces| && Unsigned(traces[k])
        && r.error.traceId == traces[k].traceId && AllSigned(traces[..k])
    ensures r.Success? <==> traces != [] && AllSigned(traces)
    ensures r.Success? ==> r.value == BatchEnvelope(traces, provenance)
  {
    hide WireTrace;
    if traces == [] {
      return Failure(EmptyBatch);
    }
    var events := [];
    for i := 0 to |traces|
      invariant |events| == i
      invariant forall j | 0 <= j < i :: !Unsigned(traces[j]) && events[j] == BatchEvent(traces[j], provenance)
    {
      if traces[i].signature.None? || traces[i].signatureKeyId.None? {
        return Failure(UnsignedTrace(traces[i].traceId));
      }
      events := events + [BatchEvent(traces[i], provenance)];
    }
    assert events == BatchEvents(traces, provenance);
    var envelope: map<string, Json> := map[];
    envelope := envelope["events" := Arr(events)];
    envelope := envelope["batch_timestamp" := Str(provenance.batchTimestamp)];
    envelope := envelope["consent_timestamp" := Str(provenance.consentTimestamp)];
    envelope := envelope["trace_level" := Str(provenance.traceLevel)];
    envelope := envelope["trace_schema_version" := Str(provenance.traceSchemaVersion)];
    match provenance.correlationMetadata {
      case Some(metadata) => envelope := envelope["correlation_metadata" := metadata];
      case None =>
    }
    assert Obj(envelope) == BatchEnvelope(traces, provenance);
    r := Success(Obj(envelope));
  }
}
