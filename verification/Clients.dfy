/**
 From an inbound event to a signed batch, twice: the client that owns a Rust engine
 (capture/client.rs) and the one whose engine is a Python object (capture/py_engine.rs).
 */
module Clients {
  import opened Wrappers
  import opened JsonValue
  import opened Partial
  import opened Consent
  import opened Seal
  import opened Batch

  datatype Correlation = Correlation(isEmpty: bool, value: Json)

  /** What both clients are configured with. */
  datatype Config = Config(
    traceLevel: string,
    traceSchemaVersion: string,
    correlation: Option<Correlation>,
    consentTimestamp: Option<string>,
    deploymentProfile: Option<Json>,
    tee: bool,
    rfc3339: int -> string)

  datatype Outcome =
    | OpenedEvent
    | AppendedEvent
    | Rejected(raw: string)
    | ConsentBlocked(reason: string)
    | Emitted(traceId: string, batch: Json)

  datatype ClientError =
    | SealFailed(message: string)
    | SignFailed(message: string)
    | BadSignature(length: nat)
    | BatchFailed(error: BatchError)
    | ConsentUnreadable(message: string)
    | PersistFailed(message: string)

  /** What the engine answers to the batch it is handed. */
  type Answer = Result<(), string>

  /** The attestation rows read from the directory, or the error of reading them. */
  type Directory = Result<seq<Attestation>, string>

  // ---- Shared by the specifications ------------------------------------------------------------------

  function CorrelationOf(config: Config): Option<Json> {
    match config.correlation
    case Some(c) => if c.isEmpty then None else Some(c.value)
    case None => None
  }

  function ProvenanceOf(config: Config, consentTimestamp: string, now: string): Provenance {
    Provenance(now, consentTimestamp, config.traceLevel, config.traceSchemaVersion, CorrelationOf(config))
  }

  /** Fill in the deployment profile and the level that the trace did not bring itself. */
  function Stamped(config: Config, trace: CompleteTrace): CompleteTrace {
    trace.(deploymentProfile := OrElse(trace.deploymentProfile, config.deploymentProfile),
           traceLevel := OrElse(trace.traceLevel, Some(config.traceLevel)))
  }

  function SignedTrace(signer: Signer, trace: CompleteTrace): Result<CompleteTrace, ClientError> {
    match CanonicalBytes(signer, trace)
    case Failure(message) => Failure(SealFailed(message))
    case Success(bytes) =>
      match signer.sign(bytes)
      case Failure(message) => Failure(SignFailed(message))
      case Success(sig) => Success(ApplySignature(signer, trace, sig))
  }

  /** The batch of one sealed trace whose gate is open. */
  function EmissionOf(config: Config, signer: Signer, trace: CompleteTrace, consentTimestamp: string, now: string)
    : Result<Outcome, ClientError>
  {
    match SignedTrace(signer, Stamped(config, trace))
    case Failure(error) => Failure(error)
    case Success(signed) =>
      Success(Emitted(trace.traceId, BatchEnvelope([signed], ProvenanceOf(config, consentTimestamp, now))))
  }

  /** The gate at a seal: with an attesting key the directory is read, and a failed read closes it. */
  function Gate(config: Config, attestingKey: Option<string>, directory: Directory): Result<Resolution, ClientError> {
    if attestingKey.None? then Success(ResolveConsent(Absent, config.consentTimestamp))
    else
      match directory
      case Failure(message) => Failure(ConsentUnreadable(message))
      case Success(rows) => Success(ResolveConsent(Grant(rows), config.consentTimestamp))
  }

  function Gated(
    config: Config, signer: Signer, gate: Result<Resolution, ClientError>, trace: CompleteTrace, now: string)
    : Result<Outcome, ClientError>
  {
    match gate
    case Failure(error) => Failure(error)
    case Success(CegGrant(assertedAt)) => EmissionOf(config, signer, trace, config.rfc3339(assertedAt), now)
    case Success(ConfigFallback(timestamp)) => EmissionOf(config, signer, trace, timestamp, now)
    case Success(Withdrawn(_)) => Success(ConsentBlocked("withdrawn"))
    case Success(NoConsent) => Success(ConsentBlocked("no_consent"))
  }

  /** One event through a client, up to the batch handed to the engine. */
  function EventStep(
    config: Config, signer: Signer, gate: Result<Resolution, ClientError>, s: Store, ev: InboundEvent, now: string)
    : (Store, Result<Outcome, ClientError>)
  {
    var (after, captured) := CaptureStep(s, ev, ev.thoughtId);
    (after,
     match captured
     case Opened => Success(OpenedEvent)
     case Appended => Success(AppendedEvent)
     case UnknownEvent(raw) => Success(Rejected(raw))
     case Sealed(trace) => Gated(config, signer, gate, trace, now))
  }

  predicate IsEmission(r: Result<Outcome, ClientError>) {
    r.Success? && r.value.Emitted?
  }

  /** The batch that goes to the engine, if one does. */
  function Handed(r: Result<Outcome, ClientError>): seq<Json> {
    if IsEmission(r) then [r.value.batch] else []
  }

  /** What the caller is told once the engine has answered. */
  function Told(r: Result<Outcome, ClientError>, answer: Answer): Result<Outcome, ClientError> {
    if IsEmission(r) && answer.Failure? then Failure(PersistFailed(answer.error)) else r
  }

  const U64: int := 0x1_0000_0000_0000_0000

  function TeeAfter(config: Config, teeSeq: nat, r: Result<Outcome, ClientError>): nat {
    if config.tee && IsEmission(r) then (teeSeq + 1) % U64 else teeSeq
  }

  // ---- The client with a Rust engine ----------------------------------------------------------------------

  datatype PrepareSealOutcome =
    | NotSealing(outcome: Outcome)
    | ReadyToSeal(trace: CompleteTrace, provenance: Provenance, deploymentProfile: Option<Json>)

  method SignTrace(signer: Signer, trace: CompleteTrace) returns (r: Result<CompleteTrace, ClientError>)
    ensures r == SignedTrace(signer, trace)
  {
    var bytes := CanonicalBytes(signer, trace);
    if bytes.Failure? {
      return Failure(SealFailed(bytes.error));
    }
    var sig := signer.sign(bytes.value);
    if sig.Failure? {
      return Failure(SignFailed(sig.error));
    }
    r := Success(ApplySignature(signer, trace, sig.value));
  }

  /** `seal_sign_wrap`: stamp what is missing, sign, wrap. */
  method SealSignWrap(signer: Signer, sealed: CompleteTrace, provenance: Provenance, deploymentProfile: Option<Json>)
    returns (r: Result<Json, ClientError>)
    ensures var stamped := sealed.(deploymentProfile := OrElse(sealed.deploymentProfile, deploymentProfile),
                                   traceLevel := OrElse(sealed.traceLevel, Some(provenance.traceLevel)));
      r == match SignedTrace(signer, stamped)
           case Failure(error) => Failure(error)
           case Success(signed) => Success(BatchEnvelope([signed], provenance))
  {
    hide CanonicalBytes, BatchEnvelope;
    var trace := sealed;
    if trace.deploymentProfile.None? {
      trace := trace.(deploymentProfile := deploymentProfile);
    }
    if trace.traceLevel.None? {
      trace := trace.(traceLevel := Some(provenance.traceLevel));
    }
    var signed := SignTrace(signer, trace);
    if signed.Failure? {
      return Failure(signed.error);
    }
    var batch := BuildBatch([signed.value], provenance);
    match batch {
      case Failure(error) => r := Failure(BatchFailed(error));
      case Success(envelope) => r := Success(envelope);
    }
  }

  class CaptureClient {
    const store: PartialTraceStore
    const config: Config
    const consentAttestingKeyId: Option<string>
    var teeSeq: nat
    /** The batches handed to the engine, in order. */
    ghost var handed: seq<Json>

    constructor (config: Config, consentAttestingKeyId: Option<string>)
      ensures fresh(store) && store.State() == EMPTY && teeSeq == 0 && handed == []
      ensures this.config == config && this.consentAttestingKeyId == consentAttestingKeyId
    {
      this.config := config;
      this.consentAttestingKeyId := consentAttestingKeyId;
      teeSeq := 0;
      handed := [];
      store := new PartialTraceStore();
    }

    /** Assemble, and at a seal ask the gate; nothing is signed yet. */
    method PrepareForSeal(ev: InboundEvent, directory: Directory, now: string)
      returns (r: Result<PrepareSealOutcome, ClientError>)
      modifies store
      ensures store.State() == CaptureStep(old(store.State()), ev, ev.thoughtId).0
      ensures PreparedAs(r, config, Gate(config, consentAttestingKeyId, directory),
                         CaptureStep(old(store.State()), ev, ev.thoughtId).1, now)
    {
      hide CaptureStep, Grant;
      var captured := store.Capture(ev, ev.thoughtId);
      var trace: CompleteTrace;
      match captured {
        case Opened => return Success(NotSealing(OpenedEvent));
        case Appended => return Success(NotSealing(AppendedEvent));
        case UnknownEvent(raw) => return Success(NotSealing(Rejected(raw)));
        case Sealed(sealed) => trace := sealed;
      }
      var resolution: Resolution;
      if consentAttestingKeyId.Some? {
        if directory.Failure? {
          return Failure(ConsentUnreadable(directory.error));
        }
        var grant := ResolveGrant(directory.value);
        resolution := ResolveConsent(grant, config.consentTimestamp);
      } else {
        resolution := ResolveConsent(Absent, config.consentTimestamp);
      }
      var consentTimestamp;
      match resolution {
        case CegGrant(assertedAt) => consentTimestamp := config.rfc3339(assertedAt);
        case ConfigFallback(timestamp) => consentTimestamp := timestamp;
        case Withdrawn(_) => return Success(NotSealing(ConsentBlocked("withdrawn")));
        case NoConsent => return Success(NotSealing(ConsentBlocked("no_consent")));
      }
      var correlation: Option<Json> := None;
      if config.correlation.Some? && !config.correlation.value.isEmpty {
        correlation := Some(config.correlation.value.value);
      }
      var provenance := Provenance(now, consentTimestamp, config.traceLevel, config.traceSchemaVersion, correlation);
      r := Success(ReadyToSeal(trace, provenance, config.deploymentProfile));
    }

    /** The engine's entry point: the batch is its own from here on. */
    method ReceiveAndPersist(batch: Json, answer: Answer) returns (persisted: Answer)
      modifies this`handed
      ensures handed == old(handed) + [batch] && persisted == answer
    {
      handed := handed + [batch];
      persisted := answer;
    }

    /** `answer` is what the engine says if it is asked. */
    method CaptureEvent(signer: Signer, ev: InboundEvent, directory: Directory, now: string, answer: Answer)
      returns (r: Result<Outcome, ClientError>)
      modifies this, store
      ensures var gate := Gate(config, consentAttestingKeyId, directory);
        var (after, outcome) := EventStep(config, signer, gate, old(store.State()), ev, now);
        && store.State() == after
        && r == Told(outcome, answer)
        && handed == old(handed) + Handed(outcome)
        && teeSeq == TeeAfter(config, old(teeSeq), outcome)
    {
      hide CaptureStep, Grant, SignedTrace, BatchEnvelope;
      var prepared := PrepareForSeal(ev, directory, now);
      if prepared.Failure? {
        return Failure(prepared.error);
      }
      match prepared.value {
        case NotSealing(outcome) =>
          return Success(outcome);
        case ReadyToSeal(trace, provenance, deploymentProfile) =>
          var batch := SealSignWrap(signer, trace, provenance, deploymentProfile);
          if batch.Failure? {
            return Failure(batch.error);
          }
          if config.tee {
            teeSeq := (teeSeq + 1) % U64;
          }
          var persisted := ReceiveAndPersist(batch.value, answer);
          if persisted.Failure? {
            return Failure(PersistFailed(persisted.error));
          }
          r := Success(Emitted(trace.traceId, batch.value));
      }
    }

    method OrphanSweep(clock: Clock, now: int, maxAgeSecs: nat) returns (purged: nat)
      modifies store
      ensures store.State() == SweepStep(clock, old(store.State()), now, Clamped(maxAgeSecs))
      ensures purged == |Orphans(clock, old(store.State()), now, Clamped(maxAgeSecs))|
    {
      purged := store.OrphanSweep(clock, now, Clamped(maxAgeSecs));
    }
  }

  const I64_MAX: int := 0x7FFF_FFFF_FFFF_FFFF

  function Clamped(maxAgeSecs: nat): int {
    if maxAgeSecs < I64_MAX then maxAgeSecs else I64_MAX
  }

  /** How a prepared outcome follows from what the store and the gate said. */
  ghost predicate PreparedAs(
    r: Result<PrepareSealOutcome, ClientError>, config: Config, gate: Result<Resolution, ClientError>,
    captured: CaptureOutcome, now: string)
  {
    match captured
    case Opened => r == Success(NotSealing(OpenedEvent))
    case Appended => r == Success(NotSealing(AppendedEvent))
    case UnknownEvent(raw) => r == Success(NotSealing(Rejected(raw)))
    case Sealed(trace) =>
      match gate
      case Failure(error) => r == Failure(error)
      case Success(CegGrant(assertedAt)) =>
        r == Success(ReadyToSeal(trace,
          ProvenanceOf(config, config.rfc3339(assertedAt), now), config.deploymentProfile))
      case Success(ConfigFallback(timestamp)) =>
        r == Success(ReadyToSeal(trace, ProvenanceOf(config, timestamp, now), config.deploymentProfile))
      case Success(Withdrawn(_)) => r == Success(NotSealing(ConsentBlocked("withdrawn")))
      case Success(NoConsent) => r == Success(NotSealing(ConsentBlocked("no_consent")))
  }

  // ---- The client of a Python engine ------------------------------------------------------------------------

  datatype NonSealingKind = OpenedKind | AppendedKind | RejectedKind(raw: string)

  datatype PyPrepareOutcome =
    | NonSealing(kind: NonSealingKind)
    | PyConsentBlocked(reason: string)
    | PyReadyToSeal(trace: CompleteTrace, provenance: Provenance)

  /** `prepare` stamps the trace itself and resolves consent from config alone. */
  function Prepared(config: Config, captured: CaptureOutcome, now: string): PyPrepareOutcome {
    match captured
    case Opened => NonSealing(OpenedKind)
    case Appended => NonSealing(AppendedKind)
    case UnknownEvent(raw) => NonSealing(RejectedKind(raw))
    case Sealed(trace) =>
      match ResolveConsent(Absent, config.consentTimestamp)
      case CegGrant(assertedAt) =>
        PyReadyToSeal(Stamped(config, trace), ProvenanceOf(config, config.rfc3339(assertedAt), now))
      case ConfigFallback(timestamp) => PyReadyToSeal(Stamped(config, trace), ProvenanceOf(config, timestamp, now))
      case Withdrawn(_) => PyConsentBlocked("withdrawn")
      case NoConsent => PyConsentBlocked("no_consent")
  }

  class PyEngineCapture {
    const store: PartialTraceStore
    const config: Config
    var teeSeq: nat
    /** The batches handed to the engine, in order. */
    ghost var handed: seq<Json>

    constructor (config: Config)
      ensures fresh(store) && store.State() == EMPTY && teeSeq == 0 && handed == [] && this.config == config
    {
      this.config := config;
      teeSeq := 0;
      handed := [];
      store := new PartialTraceStore();
    }

    method Prepare(ev: InboundEvent, now: string) returns (r: PyPrepareOutcome)
      modifies store
      ensures store.State() == CaptureStep(old(store.State()), ev, ev.thoughtId).0
      ensures r == Prepared(config, CaptureStep(old(store.State()), ev, ev.thoughtId).1, now)
    {
      hide CaptureStep;
      var captured := store.Capture(ev, ev.thoughtId);
      var trace: CompleteTrace;
      match captured {
        case Opened => return NonSealing(OpenedKind);
        case Appended => return NonSealing(AppendedKind);
        case UnknownEvent(raw) => return NonSealing(RejectedKind(raw));
        case Sealed(sealed) => trace := sealed;
      }
      var consentTimestamp;
      match ResolveConsent(Absent, config.consentTimestamp) {
        case CegGrant(assertedAt) => consentTimestamp := config.rfc3339(assertedAt);
        case ConfigFallback(timestamp) => consentTimestamp := timestamp;
        case Withdrawn(_) => return PyConsentBlocked("withdrawn");
        case NoConsent => return PyConsentBlocked("no_consent");
      }
      if trace.deploymentProfile.None? {
        trace := trace.(deploymentProfile := config.deploymentProfile);
      }
      if trace.traceLevel.None? {
        trace := trace.(traceLevel := Some(config.traceLevel));
      }
      var correlation: Option<Json> := None;
      if config.correlation.Some? && !config.correlation.value.isEmpty {
        correlation := Some(config.correlation.value.value);
      }
      r := PyReadyToSeal(trace,
        Provenance(now, consentTimestamp, config.traceLevel, config.traceSchemaVersion, correlation));
    }

    method ApplySignatureAndBatch(signer: Signer, prepared: CompleteTrace, sig: string, provenance: Provenance)
      returns (r: Result<Json, BatchError>)
      ensures r == Success(BatchEnvelope([ApplySignature(signer, prepared, sig)], provenance))
    {
      hide BatchEnvelope;
      var trace := ApplySignature(signer, prepared, sig);
      r := BuildBatch([trace], provenance);
    }

    /** The engine's entry point: the batch is its own from here on. */
    method ReceiveAndPersist(batch: Json, answer: Answer) returns (persisted: Answer)
      modifies this`handed
      ensures handed == old(handed) + [batch] && persisted == answer
    {
      handed := handed + [batch];
      persisted := answer;
    }

    /** The host's loop around `prepare`: bytes, signature of 64 bytes, batch, tee, engine. */
    method CaptureEvent(signer: Signer, ev: InboundEvent, now: string, answer: Answer)
      returns (r: Result<Outcome, ClientError>)
      modifies this, store
      ensures var (after, outcome) := PyEventStep(config, signer, old(store.State()), ev, now);
        && store.State() == after
        && r == Told(outcome, answer)
        && handed == old(handed) + Handed(outcome)
        && teeSeq == TeeAfter(config, old(teeSeq), outcome)
    {
      hide CaptureStep, CanonicalBytes, BatchEnvelope;
      var prepared := Prepare(ev, now);
      match prepared {
        case NonSealing(OpenedKind) => return Success(OpenedEvent);
        case NonSealing(AppendedKind) => return Success(AppendedEvent);
        case NonSealing(RejectedKind(raw)) => return Success(Rejected(raw));
        case PyConsentBlocked(reason) => return Success(ConsentBlocked(reason));
        case PyReadyToSeal(trace, provenance) =>
          var canonical := CanonicalBytes(signer, trace);
          if canonical.Failure? {
            return Failure(SealFailed(canonical.error));
          }
          var sig := signer.sign(canonical.value);
          if sig.Failure? {
            return Failure(SignFailed(sig.error));
          }
          if |sig.value| != 64 {
            return Failure(BadSignature(|sig.value|));
          }
          var batch := ApplySignatureAndBatch(signer, trace, sig.value, provenance);
          match batch {
            case Failure(error) =>
              r := Failure(BatchFailed(error));
            case Success(envelope) =>
              if config.tee {
                teeSeq := (teeSeq + 1) % U64;
              }
              var persisted := ReceiveAndPersist(envelope, answer);
              if persisted.Failure? {
                return Failure(PersistFailed(persisted.error));
              }
              r := Success(Emitted(trace.traceId, envelope));
          }
      }
    }
  }

  function PySealed(signer: Signer, trace: CompleteTrace, provenance: Provenance): Result<Outcome, ClientError> {
    match CanonicalBytes(signer, trace)
    case Failure(message) => Failure(SealFailed(message))
    case Success(bytes) =>
      match signer.sign(bytes)
      case Failure(message) => Failure(SignFailed(message))
      case Success(sig) =>
        if |sig| != 64 then Failure(BadSignature(|sig|))
        else Success(Emitted(trace.traceId, BatchEnvelope([ApplySignature(signer, trace, sig)], provenance)))
  }

  function PyEventStep(config: Config, signer: Signer, s: Store, ev: InboundEvent, now: string)
    : (Store, Result<Outcome, ClientError>) {
    var (after, captured) := CaptureStep(s, ev, ev.thoughtId);
    (after,
     match Prepared(config, captured, now)
     case NonSealing(OpenedKind) => Success(OpenedEvent)
     case NonSealing(AppendedKind) => Success(AppendedEvent)
     case NonSealing(RejectedKind(raw)) => Success(Rejected(raw))
     case PyConsentBlocked(reason) => Success(ConsentBlocked(reason))
     case PyReadyToSeal(trace, provenance) => PySealed(signer, trace, provenance))
  }
}
