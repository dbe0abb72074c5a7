/**
 Whole runs of the two clients: they simulate each other, no trace passes the consent gate while
 the newest attestation withdraws, and what was blocked at its seal never appears in a later trace.
 */
module ClientRuns {
  import opened Wrappers
  import opened JsonValue
  import opened Events
  import opened Partial
  import opened PartialRuns
  import opened Consent
  import opened Seal
  import opened Batch
  import opened Clients

  // ---- The two paths simulate each other -------------------------------------------------------------

  /** The host's signatures are Ed25519 signatures, 64 bytes long. */
  ghost predicate SignsEd25519(signer: Signer) {
    forall bytes: string :: signer.sign(bytes).Success? ==> |signer.sign(bytes).value| == 64
  }

  /** Without an attesting key, one event takes both clients to the same store and the same outcome. */
  lemma StepsAgree(config: Config, signer: Signer, directory: Directory, s: Store, ev: InboundEvent, now: string)
    requires SignsEd25519(signer)
    ensures EventStep(config, signer, Gate(config, None, directory), s, ev, now)
      == PyEventStep(config, signer, s, ev, now)
  {
    hide CaptureStep, CanonicalBytes, BatchEnvelope, CorrelationOf;
  }

  datatype PathOp =
    | PathEvent(ev: InboundEvent, now: string, answer: Answer)
    | PathSweep(at: int, maxAgeSecs: nat)

  /** The store a run leaves, what its caller was told at each event, and the batches handed over. */
  datatype Path = Path(store: Store, told: seq<Result<Outcome, ClientError>>, handed: seq<Json>)

  const START := Path(EMPTY, [], [])

  function Continued(path: Path, step: (Store, Result<Outcome, ClientError>), answer: Answer): Path {
    Path(step.0, path.told + [Told(step.1, answer)], path.handed + Handed(step.1))
  }

  function Cleared(clock: Clock, path: Path, at: int, maxAgeSecs: nat): Path {
    path.(store := SweepStep(clock, path.store, at, Clamped(maxAgeSecs)))
  }

  /** A run of the Rust-engine client, whatever its directory would answer. */
  function RustRun(clock: Clock, config: Config, signer: Signer, directory: Directory, ops: seq<PathOp>): Path {
    if ops == [] then START
    else
      var path := RustRun(clock, config, signer, directory, ops[..|ops| - 1]);
      match ops[|ops| - 1]
      case PathEvent(ev, now, answer) =>
        Continued(path, EventStep(config, signer, Gate(config, None, directory), path.store, ev, now), answer)
      case PathSweep(at, maxAgeSecs) => Cleared(clock, path, at, maxAgeSecs)
  }

  function PyRun(clock: Clock, config: Config, signer: Signer, ops: seq<PathOp>): Path {
    if ops == [] then START
    else
      var path := PyRun(clock, config, signer, ops[..|ops| - 1]);
      match ops[|ops| - 1]
      case PathEvent(ev, now, answer) =>
        Continued(path, PyEventStep(config, signer, path.store, ev, now), answer)
      case PathSweep(at, maxAgeSecs) => Cleared(clock, path, at, maxAgeSecs)
  }

  /** With one configuration, signer, engine and sequence of events, outcomes and batches agree at every step. */
  lemma {:induction false} PathsAgree(
    clock: Clock, config: Config, signer: Signer, directory: Directory, ops: seq<PathOp>)
    requires SignsEd25519(signer)
    ensures RustRun(clock, config, signer, directory, ops) == PyRun(clock, config, signer, ops)
  {
    hide EventStep, PyEventStep, SweepStep, SignsEd25519;
    if ops != [] {
      var init := ops[..|ops| - 1];
      PathsAgree(clock, config, signer, directory, init);
      match ops[|ops| - 1]
      case PathEvent(ev, now, _) =>
        StepsAgree(config, signer, directory, PyRun(clock, config, signer, init).store, ev, now);
      case PathSweep(_, _) =>
    }
  }

  /** The consent a batch carries: when the grant was asserted, or the configured timestamp. */
  function ConsentTimestamp(config: Config, resolution: Resolution): string
    requires Permits(resolution)
  {
    match resolution
    case CegGrant(assertedAt) => config.rfc3339(assertedAt)
    case ConfigFallback(timestamp) => timestamp
  }

  /** Every batch handed to `BuildBatch` has one trace and that trace is signed: it never refuses. */
  lemma BatchNeverRefused(
    config: Config, signer: Signer, gate: Result<Resolution, ClientError>, s: Store, ev: InboundEvent, now: string)
    ensures var r := EventStep(config, signer, gate, s, ev, now).1;
      r.Failure? ==> !r.error.BatchFailed? || (gate.Failure? && r.error == gate.error)
    ensures var r := PyEventStep(config, signer, s, ev, now).1; r.Failure? ==> !r.error.BatchFailed?
  {
    hide BatchEnvelope, CanonicalEnvelope, CaptureStep;
  }

  /** A batch that is emitted holds one trace, signed over exactly the bytes its wire form shows. */
  lemma EmittedIsSigned(
    config: Config, signer: Signer, gate: Result<Resolution, ClientError>, s: Store, ev: InboundEvent, now: string)
    returns (signed: CompleteTrace, provenance: Provenance)
    requires IsEmission(EventStep(config, signer, gate, s, ev, now).1)
    ensures gate.Success? && Permits(gate.value)
    ensures CaptureStep(s, ev, ev.thoughtId).1.Sealed?
    ensures SignedTrace(signer, Stamped(config, CaptureStep(s, ev, ev.thoughtId).1.trace)) == Success(signed)
    ensures provenance == ProvenanceOf(config, ConsentTimestamp(config, gate.value), now)
    ensures EventStep(config, signer, gate, s, ev, now).1.value.batch == BatchEnvelope([signed], provenance)
    ensures !Unsigned(signed)
    ensures CanonicalBytes(signer, signed).Success? && signer.sign(CanonicalBytes(signer, signed).value).Success?
    ensures signed.signature == Some(signer.encode(signer.sign(CanonicalBytes(signer, signed).value).value))
  {
    hide BatchEnvelope, CanonicalEnvelope;
    var (after, captured) := CaptureStep(s, ev, ev.thoughtId);
    var trace := captured.trace;
    signed := SignedTrace(signer, Stamped(config, trace)).value;
    provenance := ProvenanceOf(config, ConsentTimestamp(config, gate.value), now);
    var stamped := Stamped(config, trace);
    SigningKeepsBytes(signer, stamped, signer.sign(CanonicalBytes(signer, stamped).value).value);
  }

  // ---- Runs with attestations ---------------------------------------------------------------------------

  /**
   Some key attests a row, an event comes in, or the client sweeps.  What the engine answers to a batch
   changes neither the client nor what it hands over later, so it is not part of a run.
   */
  datatype ClientOp =
    | Attest(key: string, row: Attestation)
    | Inbound(ev: InboundEvent, now: string, readable: bool)    // can the directory be read at this moment
    | Sweep(at: int, maxAgeSecs: nat)

  /** The client's setting: everything but the events. */
  datatype Setting = Setting(clock: Clock, config: Config, signer: Signer, attestingKey: string)

  /** The client's store, and the directory with the rows of every key. */
  datatype ClientState = ClientState(store: Store, attested: seq<(string, Attestation)>)

  /** `list_attestations_by`: the rows of one key. */
  function ListedBy(attested: seq<(string, Attestation)>, key: string): seq<Attestation> {
    if attested == [] then []
    else
      var (attester, row) := attested[|attested| - 1];
      ListedBy(attested[..|attested| - 1], key) + if attester == key then [row] else []
  }

  function GateNow(setting: Setting, state: ClientState, readable: bool): Result<Resolution, ClientError> {
    var rows := ListedBy(state.attested, setting.attestingKey);
    Gate(setting.config, Some(setting.attestingKey), if readable then Success(rows) else Failure("directory error"))
  }

  function StepClient(setting: Setting, state: ClientState, op: ClientOp)
    : (ClientState, Option<Result<Outcome, ClientError>>)
  {
    match op
    case Attest(key, row) => (state.(attested := state.attested + [(key, row)]), None)
    case Inbound(ev, now, readable) =>
      var gate := GateNow(setting, state, readable);
      var (after, outcome) := EventStep(setting.config, setting.signer, gate, state.store, ev, now);
      (state.(store := after), Some(outcome))
    case Sweep(at, maxAgeSecs) =>
      (state.(store := SweepStep(setting.clock, state.store, at, Clamped(maxAgeSecs))), None)
  }

  function RunClient(setting: Setting, ops: seq<ClientOp>): ClientState {
    if ops == [] then ClientState(EMPTY, [])
    else StepClient(setting, RunClient(setting, ops[..|ops| - 1]), ops[|ops| - 1]).0
  }

  /** The outcome at position `i` of the run, up to the batch handed to the engine. */
  function OutcomeAt(setting: Setting, ops: seq<ClientOp>, i: nat): Option<Result<Outcome, ClientError>>
    requires i < |ops|
  {
    StepClient(setting, RunClient(setting, ops[..i]), ops[i]).1
  }

  predicate EmittedAt(setting: Setting, ops: seq<ClientOp>, i: nat)
    requires i < |ops|
  {
    OutcomeAt(setting, ops, i).Some? && IsEmission(OutcomeAt(setting, ops, i).value)
  }

  /** The rows `key` has attested so far, in order. */
  function RowsOf(ops: seq<ClientOp>, key: string): seq<Attestation> {
    if ops == [] then []
    else
      RowsOf(ops[..|ops| - 1], key) +
      match ops[|ops| - 1]
      case Attest(attester, row) => if attester == key then [row] else []
      case _ => []
  }

  /** The rows the gate goes by at position `i`. */
  function RowsAt(setting: Setting, ops: seq<ClientOp>, i: nat): seq<Attestation>
    requires i <= |ops|
  {
    RowsOf(ops[..i], setting.attestingKey)
  }

  /** The operations the store sees. */
  function StoreOps(ops: seq<ClientOp>): seq<Op> {
    if ops == [] then []
    else StoreOps(ops[..|ops| - 1]) + StoreOp(ops[|ops| - 1])
  }

  function StoreOp(op: ClientOp): seq<Op> {
    match op
    case Attest(_, _) => []
    case Inbound(ev, _, _) => [Captured(ev, ev.thoughtId)]
    case Sweep(at, maxAgeSecs) => [Swept(at, Clamped(maxAgeSecs))]
  }

  lemma {:induction false} ClientIsStoreAndRows(setting: Setting, ops: seq<ClientOp>)
    ensures RunClient(setting, ops).store == Run(setting.clock, StoreOps(ops))
    ensures ListedBy(RunClient(setting, ops).attested, setting.attestingKey) == RowsOf(ops, setting.attestingKey)
  {
    hide CaptureStep, SweepStep, Gated;
    if ops != [] {
      var init, last := ops[..|ops| - 1], ops[|ops| - 1];
      ClientIsStoreAndRows(setting, init);
      if !last.Attest? {
        assert StoreOps(ops)[..|StoreOps(ops)| - 1] == StoreOps(init);
      } else {
        assert StoreOps(ops) == StoreOps(init);
      }
    }
  }

  /** The event at position `i` completes a trace. */
  predicate SealsAt(ops: seq<ClientOp>, i: nat)
    requires i < |ops|
  {
    ops[i].Inbound? && Parse(ops[i].ev.eventType) == Some(ActionResult)
  }

  /** The gate as it stands at position `i`. */
  predicate GateOpenAt(setting: Setting, ops: seq<ClientOp>, i: nat)
    requires i < |ops|
  {
    ops[i].Inbound? && ops[i].readable
    && Permits(ResolveConsent(Grant(RowsAt(setting, ops, i)), setting.config.consentTimestamp))
  }

  ghost function SegmentAt(setting: Setting, ops: seq<ClientOp>, i: nat): seq<Op>
    requires i < |ops| && ops[i].Inbound?
  {
    HistoryOf(setting.clock, StoreOps(ops[..i]), ops[i].ev.thoughtId).pending
    + [Captured(ops[i].ev, ops[i].ev.thoughtId)]
  }

  lemma CaptureSeals(s: Store, ev: InboundEvent)
    requires Filed(s)
    ensures CaptureStep(s, ev, ev.thoughtId).1.Sealed? <==> Parse(ev.eventType) == Some(ActionResult)
    ensures CaptureStep(s, ev, ev.thoughtId).1.Sealed? ==>
      SealedNow(s, Captured(ev, ev.thoughtId), ev.thoughtId) == [CaptureStep(s, ev, ev.thoughtId).1.trace]
  {
    hide Find, ComponentOf;
  }

  /** The trace of the segment that the event at `i` completes, stamped and signed. */
  ghost function SignedAt(setting: Setting, ops: seq<ClientOp>, i: nat): Result<CompleteTrace, ClientError>
    requires i < |ops| && SealsAt(ops, i) && AllRecognised(SegmentAt(setting, ops, i), ops[i].ev.thoughtId)
  {
    var trace := SealOf(SegmentAt(setting, ops, i), ops[i].ev.thoughtId);
    SignedTrace(setting.signer, Stamped(setting.config, trace))
  }

  /**
   Position `i` emits exactly when its event seals a trace, the gate stands open there, and the
   host signs; and then the trace emitted is the thought's pending segment, stamped and signed,
   under the consent the gate found.
   */
  lemma EmissionExact(setting: Setting, ops: seq<ClientOp>, i: nat)
    requires i < |ops|
    ensures SealsAt(ops, i) ==> AllRecognised(SegmentAt(setting, ops, i), ops[i].ev.thoughtId)
    ensures EmittedAt(setting, ops, i) <==>
      SealsAt(ops, i) && GateOpenAt(setting, ops, i) && SignedAt(setting, ops, i).Success?
    ensures EmittedAt(setting, ops, i) ==>
      var resolution := ResolveConsent(Grant(RowsAt(setting, ops, i)), setting.config.consentTimestamp);
      OutcomeAt(setting, ops, i).value.value.batch == BatchEnvelope(
        [SignedAt(setting, ops, i).value],
        ProvenanceOf(setting.config, ConsentTimestamp(setting.config, resolution), ops[i].now))
  {
    hide SignedTrace, BatchEnvelope, SealOf, Holds, Stamped, Grant, Find;
    ClientIsStoreAndRows(setting, ops[..i]);
    if ops[i].Inbound? {
      var t := ops[i].ev.thoughtId;
      var storeOps := StoreOps(ops[..i]);
      var op := Captured(ops[i].ev, t);
      StoreIsHistory(setting.clock, storeOps, t);
      RunFiled(setting.clock, storeOps);
      SealedNowIs(Run(setting.clock, storeOps), op, t, HistoryOf(setting.clock, storeOps, t).pending);
      CaptureSeals(Run(setting.clock, storeOps), ops[i].ev);
    }
  }

  /**
   While the newest row on the consent dimension withdraws, nothing is emitted, whatever the config
   and whatever the event; an event that seals then is told so, or that the rows cannot be read.
   */
  lemma WithdrawalStopsEmission(setting: Setting, ops: seq<ClientOp>, i: nat, row: Attestation)
    requires i < |ops| && Newest(RowsAt(setting, ops, i), row) && row.kind in {"withdraws", "recants"}
    ensures !EmittedAt(setting, ops, i)
    ensures SealsAt(ops, i) && ops[i].readable ==>
      OutcomeAt(setting, ops, i) == Some(Success(ConsentBlocked("withdrawn")))
  {
    hide SignedTrace, SealOf, Grant, Newest, Find, Run, HistoryOf, StoreOps, RowsOf, ListedBy, RunClient;
    EmissionExact(setting, ops, i);
    NewestRowDecides(RowsAt(setting, ops, i), row, setting.config.consentTimestamp);
    if SealsAt(ops, i) && ops[i].readable {
      GrantIsNewest(RowsAt(setting, ops, i), row);
      ClientIsStoreAndRows(setting, ops[..i]);
      RunFiled(setting.clock, StoreOps(ops[..i]));
      CaptureSeals(Run(setting.clock, StoreOps(ops[..i])), ops[i].ev);
    }
  }

  // ---- What was blocked stays out -------------------------------------------------------------------------

  /** The positions, among the store's operations, of the events pending for thought `t`. */
  function PendingAt(clock: Clock, ops: seq<Op>, t: string): seq<nat> {
    if ops == [] then []
    else
      var n := |ops| - 1;
      var before := PendingAt(clock, ops[..n], t);
      match ops[n]
      case Captured(_, _) =>
        if !Recognised(ops[n], t) then before else if SealsTrace(Kind(ops[n])) then [] else before + [n]
      case Swept(now, maxAgeSecs) =>
        var pending := HistoryOf(clock, ops[..n], t).pending;
        if pending != [] && pending[0].Captured? && Stale(clock, pending[0].ev.timestamp, now, maxAgeSecs)
        then [] else before
  }

  lemma {:induction false} PendingAtIsPending(clock: Clock, ops: seq<Op>, t: string)
    ensures var at, pending := PendingAt(clock, ops, t), HistoryOf(clock, ops, t).pending;
      |at| == |pending| && forall k | 0 <= k < |at| :: at[k] < |ops| && ops[at[k]] == pending[k]
  {
    hide Parse, Stale;
    if ops != [] { PendingAtIsPending(clock, ops[..|ops| - 1], t); }
  }

  /** Once an event at `b` has sealed its thought, no event up to `b` is pending for it any more. */
  lemma {:induction false} SealedEventsGone(clock: Clock, ops: seq<Op>, t: string, b: nat)
    requires b < |ops| && Recognised(ops[b], t) && SealsTrace(Kind(ops[b]))
    ensures forall k | 0 <= k < |PendingAt(clock, ops, t)| :: b < PendingAt(clock, ops, t)[k]
  {
    hide Parse, Stale;
    var n := |ops| - 1;
    if b < n {
      assert ops[..n][b] == ops[b];
      SealedEventsGone(clock, ops[..n], t, b);
    }
  }

  lemma {:induction false} StoreOpsPrefix(ops: seq<ClientOp>, i: nat)
    requires i <= |ops|
    ensures StoreOps(ops[..i]) <= StoreOps(ops)
  {
    if i < |ops| {
      var init := ops[..|ops| - 1];
      assert init[..i] == ops[..i];
      StoreOpsPrefix(init, i);
    } else {
      assert ops[..i] == ops;
    }
  }

  /** Where position `b` of the client's run stands among the store's operations of the first `i`. */
  lemma StorePosition(ops: seq<ClientOp>, b: nat, i: nat)
    requires b < i <= |ops| && ops[b].Inbound?
    ensures |StoreOps(ops[..b])| < |StoreOps(ops[..i])|
    ensures StoreOps(ops[..i])[|StoreOps(ops[..b])|] == Captured(ops[b].ev, ops[b].ev.thoughtId)
  {
    assert ops[..i][..b + 1] == ops[..b + 1] && ops[..b + 1][..b] == ops[..b];
    StoreOpsPrefix(ops[..i], b + 1);
    assert StoreOps(ops[..b + 1]) == StoreOps(ops[..b]) + [Captured(ops[b].ev, ops[b].ev.thoughtId)];
  }

  /**
   A trace blocked at position `b`, for whatever reason, is never emitted later: the segment of any
   later seal at `i` of the same thought consists of store operations after that of `b`.
   */
  lemma BlockedTraceNeverEmitted(setting: Setting, ops: seq<ClientOp>, b: nat, i: nat)
    requires b < i < |ops| && SealsAt(ops, b) && SealsAt(ops, i) && ops[b].ev.thoughtId == ops[i].ev.thoughtId
    ensures var t := ops[i].ev.thoughtId;
      var storeOps := StoreOps(ops[..i]);
      var at := PendingAt(setting.clock, storeOps, t);
      && |StoreOps(ops[..b])| < |storeOps|
      && |SegmentAt(setting, ops, i)| == |at| + 1
      && forall k | 0 <= k < |at| ::
           |StoreOps(ops[..b])| < at[k] < |storeOps| && SegmentAt(setting, ops, i)[k] == storeOps[at[k]]
  {
    hide Stale, Find, PendingAt, HistoryOf, StoreOps;
    var t := ops[i].ev.thoughtId;
    StorePosition(ops, b, i);
    SealedEventsGone(setting.clock, StoreOps(ops[..i]), t, |StoreOps(ops[..b])|);
    PendingAtIsPending(setting.clock, StoreOps(ops[..i]), t);
  }
}
