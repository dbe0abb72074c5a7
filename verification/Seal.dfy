/** The canonical signing envelope of a sealed trace and its signature (capture/seal.rs, capture/batch.rs). */
module Seal {
  import opened Wrappers
  import opened Ordering
  import opened JsonValue
  import opened Events
  import opened Partial

  // ---- strip_empty --------------------------------------------------------------------------------

  predicate IsEmpty(v: Json) {
    v == Null || v == Str("") || v == Arr([]) || v == Obj(map[])
  }

  function Strip(v: Json): Json
    decreases v, 1
  {
    match v
    case Obj(m) => Obj(map k | k in m && !IsEmpty(Strip(m[k])) :: Strip(m[k]))
    case Arr(items) => Arr(StripItems(items))
    case _ => v
  }

  /** Drop the null elements, strip the others; an element that strips to empty stays. */
  function StripItems(items: seq<Json>): seq<Json>
    decreases items, 0
  {
    if items == [] then []
    else if items[0].Null? then StripItems(items[1..])
    else [Strip(items[0])] + StripItems(items[1..])
  }

  /** `strip_empty`: rebuild objects member by member and arrays element by element. */
  method StripEmpty(v: Json) returns (r: Json)
    ensures r == Strip(v)
    decreases v
  {
    match v {
      case Obj(m) =>
        var keys := SortedKeys(m.Keys);
        SortedKeysExact(m.Keys);
        var out: map<string, Json> := map[];
        for i := 0 to |keys|
          invariant forall k | k in out :: k in m && out[k] == Strip(m[k]) && !IsEmpty(out[k])
          invariant forall j | 0 <= j < i :: keys[j] in out <==> !IsEmpty(Strip(m[keys[j]]))
          invariant forall k | k in out :: exists j :: 0 <= j < i && keys[j] == k
        {
          var stripped := StripEmpty(m[keys[i]]);
          if !IsEmpty(stripped) {
            out := out[keys[i] := stripped];
          }
        }
        assert out == Strip(v).members;
        r := Obj(out);
      case Arr(items) =>
        var out := [];
        for i := 0 to |items|
          invariant out + StripItems(items[i..]) == StripItems(items)
        {
          if !items[i].Null? {
            var stripped := StripEmpty(items[i]);
            out := out + [stripped];
          }
        }
        r := Arr(out);
      case _ =>
        r := v;
    }
  }

  lemma {:induction false} StripIdempotent(v: Json)
    ensures Strip(Strip(v)) == Strip(v)
    decreases v, 1
  {
    match v
    case Obj(m) =>
      forall k | k in m ensures Strip(Strip(m[k])) == Strip(m[k]) { StripIdempotent(m[k]); }
      assert Strip(Strip(v)).members == Strip(v).members;
    case Arr(items) => StripItemsIdempotent(items);
    case _ =>
  }

  lemma {:induction false} StripItemsIdempotent(items: seq<Json>)
    ensures StripItems(StripItems(items)) == StripItems(items)
    decreases items, 0
  {
    if items != [] {
      StripItemsIdempotent(items[1..]);
      if !items[0].Null? {
        StripIdempotent(items[0]);
        var stripped := StripItems(items);
        assert stripped[0] == Strip(items[0]) && stripped[1..] == StripItems(items[1..]);
      }
    }
  }

  /** No object member anywhere is empty and no array element anywhere is null. */
  predicate Clean(v: Json) {
    match v
    case Obj(m) => forall k | k in m :: !IsEmpty(m[k]) && Clean(m[k])
    case Arr(items) => forall i | 0 <= i < |items| :: !items[i].Null? && Clean(items[i])
    case _ => true
  }

  /** The values `strip_empty` leaves alone are exactly the clean ones. */
  lemma {:induction false} FixedPointsAreClean(v: Json)
    ensures Strip(v) == v <==> Clean(v)
    decreases v, 1
  {
    match v
    case Obj(m) =>
      forall k | k in m ensures Strip(m[k]) == m[k] <==> Clean(m[k]) { FixedPointsAreClean(m[k]); }
      if Clean(v) {
        assert Strip(v).members == m;
      }
      if Strip(v) == v {
        forall k | k in m ensures !IsEmpty(m[k]) && Clean(m[k]) {
          assert k in Strip(v).members && Strip(v).members[k] == Strip(m[k]);
        }
      }
    case Arr(items) => FixedItemsAreClean(items);
    case _ =>
  }

  lemma {:induction false} FixedItemsAreClean(items: seq<Json>)
    ensures |StripItems(items)| <= |items|
    ensures StripItems(items) == items <==> forall i | 0 <= i < |items| :: !items[i].Null? && Clean(items[i])
    decreases items, 0
  {
    if items != [] {
      var rest := items[1..];
      FixedItemsAreClean(rest);
      FixedPointsAreClean(items[0]);
      assert items == [items[0]] + rest;
      assert (forall i | 0 <= i < |items| :: !items[i].Null? && Clean(items[i])) <==>
        !items[0].Null? && Clean(items[0]) && forall i | 0 <= i < |rest| :: !rest[i].Null? && Clean(rest[i]);
      if !items[0].Null? {
        assert StripItems(items)[0] == Strip(items[0]) && StripItems(items)[1..] == StripItems(rest);
      }
    }
  }

  /** Whatever is stripped is clean. */
  lemma StrippedIsClean(v: Json)
    ensures Clean(Strip(v))
  {
    StripIdempotent(v);
    FixedPointsAreClean(Strip(v));
  }

  // ---- The canonical envelope ---------------------------------------------------------------------------

  function OptStr(s: Option<string>): Json {
    match s
    case Some(text) => Str(text)
    case None => Null
  }

  /** The component's data with its attempt index inside; anything but an object counts as empty data. */
  function DataWithAttemptIndex(c: TraceComponent): Json {
    var members := if c.data.Obj? then c.data.members else map[];
    Obj(members["attempt_index" := Num(c.attemptIndex as real)])
  }

  /** The component's own agent hash, or the trace's when that is blank. */
  function AgentHash(trace: CompleteTrace, c: TraceComponent): string {
    if c.agentIdHash == "" then trace.agentIdHash else c.agentIdHash
  }

  function ComponentMembers(trace: CompleteTrace, c: TraceComponent): map<string, Json> {
    map[
      "agent_id_hash" := Str(AgentHash(trace, c)),
      "component_type" := Str(ComponentName(c.componentType)),
      "data" := DataWithAttemptIndex(c),
      "event_type" := Str(WireName(c.eventType)),
      "timestamp" := Str(c.timestamp)]
  }

  function SignedComponent(trace: CompleteTrace, c: TraceComponent): Json {
    Strip(Obj(ComponentMembers(trace, c)))
  }

  function SignedComponents(trace: CompleteTrace): seq<Json> {
    seq(|trace.components|, i requires 0 <= i < |trace.components| => SignedComponent(trace, trace.components[i]))
  }

  function CanonicalEnvelope(trace: CompleteTrace): Json {
    var fields := map[
      "trace_id" := Str(trace.traceId),
      "thought_id" := Str(trace.thoughtId),
      "task_id" := OptStr(trace.taskId),
      "agent_id_hash" := Str(trace.agentIdHash),
      "started_at" := Str(trace.startedAt),
      "completed_at" := OptStr(trace.completedAt),
      "trace_level" := OptStr(trace.traceLevel),
      "trace_schema_version" := Str(trace.traceSchemaVersion),
      "components" := Arr(SignedComponents(trace))];
    Obj(match trace.deploymentProfile
        case Some(profile) => fields["deployment_profile" := profile]
        case None => fields)
  }

  // ---- What the envelope determines ------------------------------------------------------------------------

  lemma WireNameInjective(a: EventType, b: EventType)
    requires WireName(a) == WireName(b)
    ensures a == b
  {
    assert |WireName(a)| == |WireName(b)| && WireName(a)[0] == WireName(b)[0] && WireName(a)[1] == WireName(b)[1];
    assert |WireName(a)| > 11 ==> WireName(a)[11] == WireName(b)[11];
  }

  lemma ComponentNameInjective(a: ComponentType, b: ComponentType)
    requires ComponentName(a) == ComponentName(b)
    ensures a == b
  {
  }

  /** Stripped objects with the same keys agree when every member strips alike, up to being dropped. */
  lemma StrippedObjectsAgree(m1: map<string, Json>, m2: map<string, Json>)
    requires m1.Keys == m2.Keys
    ensures Strip(Obj(m1)) == Strip(Obj(m2)) <==> forall k | k in m1 ::
      Strip(m1[k]) == Strip(m2[k]) || (IsEmpty(Strip(m1[k])) && IsEmpty(Strip(m2[k])))
  {
    hide IsEmpty;
    var s1, s2 := Strip(Obj(m1)).members, Strip(Obj(m2)).members;
    if s1 == s2 {
      forall k | k in m1 ensures Strip(m1[k]) == Strip(m2[k]) || (IsEmpty(Strip(m1[k])) && IsEmpty(Strip(m2[k]))) {
        assert k in s1 <==> k in s2;
      }
    }
    if forall k | k in m1 :: Strip(m1[k]) == Strip(m2[k]) || (IsEmpty(Strip(m1[k])) && IsEmpty(Strip(m2[k]))) {
      assert s1 == s2;
    }
  }

  /** Two components are signed alike: same wrapper fields, and data that agree modulo stripping. */
  predicate SameSigned(t1: CompleteTrace, c1: TraceComponent, t2: CompleteTrace, c2: TraceComponent) {
    && AgentHash(t1, c1) == AgentHash(t2, c2)
    && c1.componentType == c2.componentType
    && c1.eventType == c2.eventType
    && c1.timestamp == c2.timestamp
    && Strip(DataWithAttemptIndex(c1)) == Strip(DataWithAttemptIndex(c2))
  }

  /** The data are never dropped: they hold the attempt index. */
  lemma DataKept(c: TraceComponent)
    ensures !IsEmpty(Strip(DataWithAttemptIndex(c)))
  {
    assert "attempt_index" in Strip(DataWithAttemptIndex(c)).members;
  }

  lemma StringsStripAlike(a: string, b: string)
    ensures Strip(Str(a)) == Strip(Str(b)) || (IsEmpty(Strip(Str(a))) && IsEmpty(Strip(Str(b)))) <==> a == b
  {
  }

  lemma SignedComponentsAgree(t1: CompleteTrace, c1: TraceComponent, t2: CompleteTrace, c2: TraceComponent)
    ensures SignedComponent(t1, c1) == SignedComponent(t2, c2) <==> SameSigned(t1, c1, t2, c2)
  {
    hide ComponentName, WireName, AgentHash, IsEmpty, DataWithAttemptIndex;
    var m1, m2 := ComponentMembers(t1, c1), ComponentMembers(t2, c2);
    assert m1.Keys == m2.Keys == {"agent_id_hash", "component_type", "data", "event_type", "timestamp"};
    StrippedObjectsAgree(m1, m2);
    DataKept(c1);
    DataKept(c2);
    StringsStripAlike(AgentHash(t1, c1), AgentHash(t2, c2));
    StringsStripAlike(c1.timestamp, c2.timestamp);
    StringsStripAlike(ComponentName(c1.componentType), ComponentName(c2.componentType));
    StringsStripAlike(WireName(c1.eventType), WireName(c2.eventType));
    if ComponentName(c1.componentType) == ComponentName(c2.componentType) {
      ComponentNameInjective(c1.componentType, c2.componentType);
    }
    if WireName(c1.eventType) == WireName(c2.eventType) {
      WireNameInjective(c1.eventType, c2.eventType);
    }
  }

  /** The fields that the signature covers, one by one. */
  predicate SameEnvelope(t1: CompleteTrace, t2: CompleteTrace) {
    && t1.traceId == t2.traceId && t1.thoughtId == t2.thoughtId && t1.taskId == t2.taskId
    && t1.agentIdHash == t2.agentIdHash && t1.startedAt == t2.startedAt && t1.completedAt == t2.completedAt
    && t1.traceLevel == t2.traceLevel && t1.traceSchemaVersion == t2.traceSchemaVersion
    && t1.deploymentProfile == t2.deploymentProfile
    && |t1.components| == |t2.components|
    && forall i | 0 <= i < |t1.components| :: SameSigned(t1, t1.components[i], t2, t2.components[i])
  }

  lemma OptStrInjective(a: Option<string>, b: Option<string>)
    ensures OptStr(a) == OptStr(b) <==> a == b
  {
  }

  const PLAIN_FIELDS := {"trace_id", "thought_id", "task_id", "agent_id_hash", "started_at", "completed_at",
                         "trace_level", "trace_schema_version", "components"}

  lemma EnvelopeFields(trace: CompleteTrace)
    ensures var m := CanonicalEnvelope(trace).members;
      && m.Keys == PLAIN_FIELDS + (if trace.deploymentProfile.Some? then {"deployment_profile"} else {})
      && m["trace_id"] == Str(trace.traceId) && m["thought_id"] == Str(trace.thoughtId)
      && m["task_id"] == OptStr(trace.taskId) && m["agent_id_hash"] == Str(trace.agentIdHash)
      && m["started_at"] == Str(trace.startedAt) && m["completed_at"] == OptStr(trace.completedAt)
      && m["trace_level"] == OptStr(trace.traceLevel) && m["trace_schema_version"] == Str(trace.traceSchemaVersion)
      && m["components"] == Arr(SignedComponents(trace))
      && (trace.deploymentProfile.Some? ==> m["deployment_profile"] == trace.deploymentProfile.value)
  {
    hide SignedComponent;
  }

  /**
   Two traces have the same canonical envelope exactly when every signed field agrees, the profiles
   agree (absent being different from null), and the components agree modulo stripping.
   */
  lemma EnvelopesAgree(t1: CompleteTrace, t2: CompleteTrace)
    ensures CanonicalEnvelope(t1) == CanonicalEnvelope(t2) <==> SameEnvelope(t1, t2)
  {
    EnvelopeFields(t1);
    EnvelopeFields(t2);
    EnvelopeIsObject(t1);
    EnvelopeIsObject(t2);
    hide CanonicalEnvelope, SignedComponent, SameSigned;
    var m1, m2 := CanonicalEnvelope(t1).members, CanonicalEnvelope(t2).members;
    OptStrInjective(t1.taskId, t2.taskId);
    OptStrInjective(t1.completedAt, t2.completedAt);
    OptStrInjective(t1.traceLevel, t2.traceLevel);
    SameComponents(t1, t2);
    assert "deployment_profile" !in PLAIN_FIELDS;
    if m1 == m2 {
      assert t1.deploymentProfile.Some? <==> "deployment_profile" in m1;
      assert t2.deploymentProfile.Some? <==> "deployment_profile" in m2;
    }
    if SameEnvelope(t1, t2) {
      assert m1 == m2;
    }
  }

  lemma EnvelopeIsObject(trace: CompleteTrace)
    ensures CanonicalEnvelope(trace).Obj?
  {
  }

  lemma SameComponents(t1: CompleteTrace, t2: CompleteTrace)
    ensures SignedComponents(t1) == SignedComponents(t2) <==>
      |t1.components| == |t2.components|
      && forall i | 0 <= i < |t1.components| :: SameSigned(t1, t1.components[i], t2, t2.components[i])
  {
    hide SignedComponent, SameSigned;
    if |t1.components| == |t2.components| {
      forall i | 0 <= i < |t1.components|
        ensures SignedComponents(t1)[i] == SignedComponents(t2)[i] <==>
          SameSigned(t1, t1.components[i], t2, t2.components[i])
      {
        SignedComponentsAgree(t1, t1.components[i], t2, t2.components[i]);
      }
    }
  }

  // ---- The wire form ----------------------------------------------------------------------------------------

  function WireTrace(trace: CompleteTrace): Json {
    Obj(CanonicalEnvelope(trace).members["signature" := OptStr(trace.signature)]
      ["signature_key_id" := OptStr(trace.signatureKeyId)])
  }

  /**
   What goes on the wire is the signed envelope and two more fields; its components are already
   stripped, so a verifier that strips them again recomputes what was signed.
   */
  lemma WireIsEnvelope(trace: CompleteTrace)
    ensures Obj(WireTrace(trace).members - {"signature", "signature_key_id"}) == CanonicalEnvelope(trace)
    ensures WireTrace(trace).GetStr("signature") == trace.signature
    ensures WireTrace(trace).GetStr("signature_key_id") == trace.signatureKeyId
    ensures WireTrace(trace).Get("components") == Some(Arr(SignedComponents(trace)))
    ensures forall i | 0 <= i < |trace.components| ::
      Clean(SignedComponents(trace)[i]) && Strip(SignedComponents(trace)[i]) == SignedComponents(trace)[i]
  {
    EnvelopeFields(trace);
    EnvelopeIsObject(trace);
    hide CanonicalEnvelope;
    assert "signature" !in PLAIN_FIELDS && "signature_key_id" !in PLAIN_FIELDS;
    assert Obj(WireTrace(trace).members - {"signature", "signature_key_id"}).members
      == CanonicalEnvelope(trace).members;
    forall i | 0 <= i < |trace.components|
      ensures Clean(SignedComponents(trace)[i]) && Strip(SignedComponents(trace)[i]) == SignedComponents(trace)[i]
    {
      StrippedIsClean(Obj(ComponentMembers(trace, trace.components[i])));
      StripIdempotent(Obj(ComponentMembers(trace, trace.components[i])));
    }
  }

  // ---- Signing ------------------------------------------------------------------------------------------------

  /** The canonicalizer, chosen by schema version, and the signer of the host. */
  datatype Signer = Signer(
    canonicalize: (string, Json) -> Result<string, string>,
    sign: string -> Result<string, string>,
    keyId: string,
    encode: string -> string)

  function CanonicalBytes(signer: Signer, trace: CompleteTrace): Result<string, string> {
    signer.canonicalize(trace.traceSchemaVersion, CanonicalEnvelope(trace))
  }

  function ApplySignature(signer: Signer, trace: CompleteTrace, sig: string): CompleteTrace {
    trace.(signature := Some(signer.encode(sig)), signatureKeyId := Some(signer.keyId))
  }

  /** Signing changes nothing that is signed: the verifier recomputes the bytes the signer saw. */
  lemma SigningKeepsBytes(signer: Signer, trace: CompleteTrace, sig: string)
    ensures CanonicalEnvelope(ApplySignature(signer, trace, sig)) == CanonicalEnvelope(trace)
    ensures CanonicalBytes(signer, ApplySignature(signer, trace, sig)) == CanonicalBytes(signer, trace)
    ensures CanonicalBytes(signer, trace) == signer.canonicalize(trace.traceSchemaVersion, CanonicalEnvelope(trace))
  {
    hide SignedComponent;
    var signed := ApplySignature(signer, trace, sig);
    forall i | 0 <= i < |trace.components|
      ensures SameSigned(signed, signed.components[i], trace, trace.components[i]) {
    }
    hide CanonicalEnvelope, SameSigned;
    EnvelopesAgree(signed, trace);
  }
}
