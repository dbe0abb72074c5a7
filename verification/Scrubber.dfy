/**
 Scrubbing one trace and scrubbing a batch of traces (scrubber/walker.rs and scrubber/mod.rs).
 The batch makes a single NER call for all its traces and hands every trace its slice of the
 answers; it must succeed exactly when every trace alone would, with the same values.
 */
module Scrubber {
  import opened Wrappers
  import opened JsonValue
  import opened NerCache
  import opened Backend
  import opened Walker

  datatype TraceLevel = Generic | Detailed | FullTraces

  /** The rules, and the two checks made on every scrubbed value. */
  datatype Policy = Policy(
    rules: Rules,
    residue: Json -> nat,      // historical years left over, `count_year_residue`
    probe: Json -> bool)       // operator probes, `probe_match`

  /** The model behind a backend; without one no string is ever given to it. */
  function ModelOf(backend: Option<Ner>): Model
    requires backend.Some? ==> backend.value.Valid()
  {
    match backend
    case Some(ner) => Clean(ner)
    case None => s => s
  }

  // ---- The reference outcomes -------------------------------------------------------------------

  function Scrubbed(rules: Rules, f: Model, runNer: bool, v: Json): Json {
    if runNer then MapLeaves(rules, f, false, v) else RegexLeaves(rules, v)
  }

  /** A value whose strings need a model that is not there. */
  predicate Starved(rules: Rules, configured: bool, runNer: bool, v: Json) {
    runNer && !configured && Collected(rules, false, v) != []
  }

  function WalkOutcome(rules: Rules, f: Model, configured: bool, runNer: bool, v: Json): Result<Json, ScrubError> {
    if !Shallow(v, 0) then Failure(TooDeep(0))
    else if Starved(rules, configured, runNer, v) then Failure(NerNotConfigured)
    else Success(Scrubbed(rules, f, runNer, v))
  }

  function Checked(policy: Policy, v: Json): Result<Json, ScrubError> {
    if policy.residue(v) > 0 then Failure(YearResidue(policy.residue(v)))
    else if policy.probe(v) then Failure(ProbeMatch)
    else Success(v)
  }

  /** What scrubbing one trace alone gives. */
  function TraceOutcome(policy: Policy, f: Model, configured: bool, level: TraceLevel, v: Json)
    : Result<Json, ScrubError> {
    match level
    case Generic => Success(v)
    case _ =>
      if level.FullTraces? && !configured then Failure(NerNotConfigured)
      else
        match WalkOutcome(policy.rules, f, configured, level.FullTraces?, v)
        case Failure(error) => Failure(error)
        case Success(scrubbed) => Checked(policy, scrubbed)
  }

  // ---- walk ---------------------------------------------------------------------------------------

  method Walk(cache: Cache, rules: Rules, v: Json, runNer: bool) returns (r: Result<Json, ScrubError>)
    requires cache.Valid()
    modifies cache
    ensures cache.Valid()
    ensures r == WalkOutcome(rules, ModelOf(cache.backend), cache.backend.Some?, runNer, v)
  {
    hide Logged, Shallow, Collected, MapLeaves, RegexLeaves, Consistent, Clean, Injected, Misses, Stored;
    if !runNer {
      r := WalkRegexOnly(rules, v, 0);
      return;
    }
    ghost var f := ModelOf(cache.backend);
    var collector := new Collector([]);
    var collected := collector.Collect(rules, false, v, 0);
    if collected.Failure? {
      return Failure(collected.error);
    }
    var answers: seq<string> := [];
    if collector.inputs != [] {
      var scrubbed := cache.ScrubBatch(collector.inputs);
      if scrubbed.Failure? {
        return Failure(scrubbed.error);
      }
      answers := scrubbed.value;
    }
    assert answers == MapAll(f, Collected(rules, false, v)) + [];
    InjectUndoesCollect(rules, f, false, v, []);
    var outs := new Outputs(answers);
    r := Inject(rules, false, v, outs, 0);
  }

  // ---- walk_batch ---------------------------------------------------------------------------------

  predicate AllShallow(values: seq<Json>) {
    forall i | 0 <= i < |values| :: Shallow(values[i], 0)
  }

  predicate SomeStarved(rules: Rules, configured: bool, runNer: bool, values: seq<Json>) {
    exists i :: 0 <= i < |values| && Starved(rules, configured, runNer, values[i])
  }

  function ScrubbedAll(rules: Rules, f: Model, runNer: bool, values: seq<Json>): (out: seq<Json>)
    ensures |out| == |values|
    ensures forall i | 0 <= i < |values| :: out[i] == Scrubbed(rules, f, runNer, values[i])
  {
    seq(|values|, i requires 0 <= i < |values| => Scrubbed(rules, f, runNer, values[i]))
  }

  function BatchOutcome(rules: Rules, f: Model, configured: bool, runNer: bool, values: seq<Json>)
    : (r: Result<seq<Json>, ScrubError>)
  {
    if !AllShallow(values) then Failure(TooDeep(0))
    else if SomeStarved(rules, configured, runNer, values) then Failure(NerNotConfigured)
    else Success(ScrubbedAll(rules, f, runNer, values))
  }

  /** What the first pass collects from the first `n` traces. */
  function CollectedAll(rules: Rules, values: seq<Json>, n: nat): seq<string>
    requires n <= |values|
  {
    if n == 0 then [] else CollectedAll(rules, values, n - 1) + Collected(rules, false, values[n - 1])
  }

  /** Every boundary is in range, and the slice between two neighbours belongs to one trace. */
  lemma {:induction false} SliceOfTrace(rules: Rules, values: seq<Json>, i: nat, n: nat)
    requires i < n <= |values|
    ensures |CollectedAll(rules, values, i)| <= |CollectedAll(rules, values, i + 1)| <= |CollectedAll(rules, values, n)|
    ensures CollectedAll(rules, values, n)[|CollectedAll(rules, values, i)|..|CollectedAll(rules, values, i + 1)|]
         == Collected(rules, false, values[i])
  {
    hide Collected;
    if n > i + 1 { SliceOfTrace(rules, values, i, n - 1); }
  }

  lemma {:induction false} NothingCollected(rules: Rules, values: seq<Json>, n: nat)
    requires n <= |values|
    ensures CollectedAll(rules, values, n) == [] <==> forall i | 0 <= i < n :: Collected(rules, false, values[i]) == []
  {
    hide Collected;
    if n > 0 { NothingCollected(rules, values, n - 1); }
  }

  lemma CollectedNext(rules: Rules, values: seq<Json>, i: nat)
    requires i < |values|
    ensures CollectedAll(rules, values, 0) == []
    ensures CollectedAll(rules, values, i + 1) == CollectedAll(rules, values, i) + Collected(rules, false, values[i])
  {
  }

  /** Where each of the first `n` traces ends in the flat list. */
  ghost predicate Bounds(boundaries: seq<nat>, rules: Rules, values: seq<Json>, n: nat) {
    && n <= |values| && |boundaries| == n + 1
    && forall i | 0 <= i <= n :: boundaries[i] == |CollectedAll(rules, values, i)|
  }

  lemma BoundsNext(boundaries: seq<nat>, rules: Rules, values: seq<Json>, n: nat)
    requires n < |values| && Bounds(boundaries, rules, values, n)
    ensures Bounds(boundaries + [|CollectedAll(rules, values, n + 1)|], rules, values, n + 1)
  {
    hide CollectedAll;
  }

  lemma NoBounds(rules: Rules, values: seq<Json>)
    ensures Bounds([0], rules, values, 0) && CollectedAll(rules, values, 0) == []
  {
  }

  /** Collect from every trace into one flat list, noting where each trace ends. */
  method CollectBatch(rules: Rules, values: seq<Json>)
    returns (failed: Option<ScrubError>, inputs: seq<string>, boundaries: seq<nat>)
    ensures failed == if AllShallow(values) then None else Some(TooDeep(0))
    ensures failed.None? ==>
      inputs == CollectedAll(rules, values, |values|) && Bounds(boundaries, rules, values, |values|)
  {
    hide Shallow, Collected, CollectedAll, Bounds, TooDeep;
    inputs, boundaries := [], [0];
    NoBounds(rules, values);
    for i := 0 to |values|
      invariant inputs == CollectedAll(rules, values, i)
      invariant Bounds(boundaries, rules, values, i)
      invariant forall j | 0 <= j < i :: Shallow(values[j], 0)
    {
      var collector := new Collector(inputs);
      var collected := collector.Collect(rules, false, values[i], 0);
      if collected.Failure? {
        failed := Some(collected.error);
        return;
      }
      CollectedNext(rules, values, i);
      BoundsNext(boundaries, rules, values, i);
      inputs := collector.inputs;
      boundaries := boundaries + [|inputs|];
    }
    failed := None;
  }

  /** Give every trace its slice of the answers. */
  method InjectBatch(rules: Rules, ghost f: Model, values: seq<Json>, answers: seq<string>, boundaries: seq<nat>)
    returns (done: seq<Json>)
    requires AllShallow(values) && Bounds(boundaries, rules, values, |values|)
    requires answers == MapAll(f, CollectedAll(rules, values, |values|))
    ensures done == ScrubbedAll(rules, f, true, values)
  {
    hide Shallow, Collected, MapLeaves, Injected, CollectedAll;
    done := [];
    for i := 0 to |values|
      invariant |done| == i
      invariant forall j | 0 <= j < i :: done[j] == MapLeaves(rules, f, false, values[j])
    {
      SliceOfTrace(rules, values, i, |values|);
      var slice := answers[boundaries[i]..boundaries[i + 1]];
      assert slice == MapAll(f, Collected(rules, false, values[i])) + [];
      InjectUndoesCollect(rules, f, false, values[i], []);
      var outs := new Outputs(slice);
      var scrubbed := Inject(rules, false, values[i], outs, 0);
      assert outs.rest == [];
      done := done + [scrubbed.value];
    }
  }

  method WalkBatch(cache: Cache, rules: Rules, values: seq<Json>, runNer: bool)
    returns (r: Result<seq<Json>, ScrubError>)
    requires cache.Valid()
    modifies cache
    ensures cache.Valid()
    ensures r == BatchOutcome(rules, ModelOf(cache.backend), cache.backend.Some?, runNer, values)
    ensures cache.sent == old(cache.sent) +
      if runNer && AllShallow(values) && cache.backend.Some? then
        Misses(old(cache.entries), CollectedAll(rules, values, |values|))
      else []
  {
    hide Logged, Distinct, AllShallow, Collected, CollectedAll, Scrubbed, Consistent, Clean, Misses, Stored;
    if !runNer {
      r := RegexBatch(rules, values);
      RegexNeedsNoModel(rules, ModelOf(cache.backend), values);
      return;
    }
    var failed, inputs, boundaries := CollectBatch(rules, values);
    if failed.Some? {
      return Failure(failed.value);
    }
    NothingCollected(rules, values, |values|);
    var answers: seq<string> := [];
    assert Misses(cache.entries, []) == [];
    if inputs != [] {
      var scrubbed := cache.ScrubBatch(inputs);
      if scrubbed.Failure? {
        return Failure(scrubbed.error);
      }
      answers := scrubbed.value;
    }
    ghost var f := ModelOf(cache.backend);
    assert answers == MapAll(f, inputs);
    var done := InjectBatch(rules, f, values, answers, boundaries);
    r := Success(done);
  }

  lemma RegexNeedsNoModel(rules: Rules, f: Model, values: seq<Json>)
    ensures ScrubbedAll(rules, f, false, values) == ScrubbedAll(rules, s => s, false, values)
  {
  }

  method RegexBatch(rules: Rules, values: seq<Json>) returns (r: Result<seq<Json>, ScrubError>)
    ensures r == if AllShallow(values) then Success(ScrubbedAll(rules, s => s, false, values)) else Failure(TooDeep(0))
  {
    hide Shallow, RegexLeaves;
    var done := [];
    for i := 0 to |values|
      invariant |done| == i
      invariant forall j | 0 <= j < i :: Shallow(values[j], 0) && done[j] == RegexLeaves(rules, values[j])
    {
      var scrubbed := WalkRegexOnly(rules, values[i], 0);
      if scrubbed.Failure? {
        return Failure(scrubbed.error);
      }
      done := done + [scrubbed.value];
    }
    assert done == ScrubbedAll(rules, s => s, false, values);
    r := Success(done);
  }

  // ---- scrub_trace and scrub_traces_batch -----------------------------------------------------------

  method ScrubTrace(cache: Cache, policy: Policy, v: Json, level: TraceLevel) returns (r: Result<Json, ScrubError>)
    requires cache.Valid()
    modifies cache
    ensures cache.Valid()
    ensures r == TraceOutcome(policy, ModelOf(cache.backend), cache.backend.Some?, level, v)
  {
    hide WalkOutcome, Consistent, Clean;
    var scrubbed: Json;
    match level {
      case Generic =>
        return Success(v);
      case Detailed =>
        var walked := Walk(cache, policy.rules, v, false);
        if walked.Failure? {
          return walked;
        }
        scrubbed := walked.value;
      case FullTraces =>
        if cache.backend.None? {
          return Failure(NerNotConfigured);
        }
        var walked := Walk(cache, policy.rules, v, true);
        if walked.Failure? {
          return walked;
        }
        scrubbed := walked.value;
    }
    var residue := policy.residue(scrubbed);
    if residue > 0 {
      return Failure(YearResidue(residue));
    }
    if policy.probe(scrubbed) {
      return Failure(ProbeMatch);
    }
    r := Success(scrubbed);
  }

  /** The error of the first of `n` values that does not pass its checks. */
  function ChecksUpTo(policy: Policy, values: seq<Json>, n: nat): Option<ScrubError>
    requires n <= |values|
  {
    if n == 0 then None
    else
      var before := ChecksUpTo(policy, values, n - 1);
      if before.Some? then before
      else
        match Checked(policy, values[n - 1])
        case Success(_) => None
        case Failure(error) => Some(error)
  }

  /** What scrubbing a batch gives: every walk comes before the first check. */
  function TracesOutcome(policy: Policy, f: Model, configured: bool, level: TraceLevel, traces: seq<Json>)
    : Result<seq<Json>, ScrubError>
  {
    if traces == [] || level.Generic? then Success(traces)
    else if level.FullTraces? && !configured then Failure(NerNotConfigured)
    else
      match BatchOutcome(policy.rules, f, configured, level.FullTraces?, traces)
      case Failure(error) => Failure(error)
      case Success(values) =>
        match ChecksUpTo(policy, values, |values|)
        case None => Success(values)
        case Some(error) => Failure(error)
  }

  /** The error stops the walk, before any check is made. */
  predicate WalkError(error: ScrubError) {
    error.WalkerDepthExceeded? || error.NerNotConfigured?
  }

  /**
   The batch succeeds exactly when every trace alone does, with the same values in the same order.
   When it fails, its error is the one some trace meets alone: a trace that cannot be walked, if there
   is one, and otherwise the first that does not pass its checks.
   */
  ghost predicate AgreesWithSingles(
    policy: Policy, f: Model, configured: bool, level: TraceLevel, traces: seq<Json>,
    r: Result<seq<Json>, ScrubError>)
  {
    match r
    case Success(values) =>
      && |values| == |traces|
      && forall i | 0 <= i < |traces| :: TraceOutcome(policy, f, configured, level, traces[i]) == Success(values[i])
    case Failure(error) =>
      exists i :: 0 <= i < |traces| && Reported(policy, f, configured, level, traces, i, error)
  }

  ghost predicate Reported(
    policy: Policy, f: Model, configured: bool, level: TraceLevel, traces: seq<Json>, i: nat, error: ScrubError)
    requires i < |traces|
  {
    && TraceOutcome(policy, f, configured, level, traces[i]) == Failure(error)
    && (WalkError(error) || FirstUnchecked(policy, f, configured, level, traces, i))
  }

  /** Every trace can be walked, and those before `i` pass their checks too. */
  ghost predicate FirstUnchecked(
    policy: Policy, f: Model, configured: bool, level: TraceLevel, traces: seq<Json>, i: nat)
    requires i < |traces|
  {
    && (forall j | 0 <= j < i :: TraceOutcome(policy, f, configured, level, traces[j]).Success?)
    && (forall j | 0 <= j < |traces| ::
          var single := TraceOutcome(policy, f, configured, level, traces[j]);
          single.Failure? ==> !WalkError(single.error))
  }

  /** A batch that walks gives each trace what it gets alone; one that does not fails as one of them would. */
  lemma BatchAgrees(policy: Policy, f: Model, configured: bool, level: TraceLevel, traces: seq<Json>)
    requires !level.Generic? && (level.FullTraces? ==> configured)
    ensures var r := BatchOutcome(policy.rules, f, configured, level.FullTraces?, traces);
      && (r.Failure? ==> AgreesWithSingles(policy, f, configured, level, traces, r))
      && (r.Success? ==> |r.value| == |traces| && forall i | 0 <= i < |traces| ::
            TraceOutcome(policy, f, configured, level, traces[i]) == Checked(policy, r.value[i]))
  {
    var r := BatchOutcome(policy.rules, f, configured, level.FullTraces?, traces);
    if r.Failure? {
      var i :| 0 <= i < |traces| && !Shallow(traces[i], 0);
      assert Reported(policy, f, configured, level, traces, i, r.error);
    }
  }

  lemma {:induction false} FirstFailure(policy: Policy, values: seq<Json>, n: nat)
    requires n <= |values|
    ensures match ChecksUpTo(policy, values, n)
      case None => forall i | 0 <= i < n :: Checked(policy, values[i]) == Success(values[i])
      case Some(error) =>
        exists i :: 0 <= i < n && Checked(policy, values[i]) == Failure(error)
          && forall j | 0 <= j < i :: Checked(policy, values[j]).Success?
  {
    if n > 0 { FirstFailure(policy, values, n - 1); }
  }

  lemma ChecksPass(policy: Policy, v: Json)
    ensures match Checked(policy, v)
      case Success(value) => value == v
      case Failure(error) => !WalkError(error)
  {
  }

  /** The batch outcome against the outcomes of its traces alone. */
  lemma TracesAgree(policy: Policy, f: Model, configured: bool, level: TraceLevel, traces: seq<Json>)
    ensures AgreesWithSingles(policy, f, configured, level, traces, TracesOutcome(policy, f, configured, level, traces))
  {
    hide BatchOutcome, WalkOutcome, Checked;
    if traces == [] || level.Generic? {
    } else if level.FullTraces? && !configured {
      assert Reported(policy, f, configured, level, traces, 0, NerNotConfigured);
    } else {
      BatchAgrees(policy, f, configured, level, traces);
      hide TraceOutcome;
      match BatchOutcome(policy.rules, f, configured, level.FullTraces?, traces)
      case Failure(_) =>
      case Success(values) =>
        FirstFailure(policy, values, |values|);
        forall v ensures Checked(policy, v).Failure? ==> !WalkError(Checked(policy, v).error) {
          ChecksPass(policy, v);
        }
        match ChecksUpTo(policy, values, |values|)
        case None =>
        case Some(error) =>
          var i :| 0 <= i < |values| && Checked(policy, values[i]) == Failure(error)
            && forall j | 0 <= j < i :: Checked(policy, values[j]).Success?;
          assert Reported(policy, f, configured, level, traces, i, error);
    }
  }

  lemma {:induction false} FailureStays(policy: Policy, values: seq<Json>, i: nat, n: nat)
    requires i <= n <= |values| && ChecksUpTo(policy, values, i).Some?
    ensures ChecksUpTo(policy, values, n) == ChecksUpTo(policy, values, i)
  {
    if i < n { FailureStays(policy, values, i, n - 1); }
  }

  method ScrubTracesBatch(cache: Cache, policy: Policy, traces: seq<Json>, level: TraceLevel)
    returns (r: Result<seq<Json>, ScrubError>)
    requires cache.Valid()
    modifies cache
    ensures cache.Valid()
    ensures r == TracesOutcome(policy, ModelOf(cache.backend), cache.backend.Some?, level, traces)
    ensures AgreesWithSingles(policy, ModelOf(cache.backend), cache.backend.Some?, level, traces, r)
  {
    hide BatchOutcome, WalkOutcome, TraceOutcome, AgreesWithSingles, Logged, Consistent, Clean;
    TracesAgree(policy, ModelOf(cache.backend), cache.backend.Some?, level, traces);
    if traces == [] {
      return Success([]);
    }
    var values: seq<Json>;
    match level {
      case Generic =>
        return Success(traces);
      case Detailed =>
        var walked := WalkBatch(cache, policy.rules, traces, false);
        if walked.Failure? {
          return walked;
        }
        values := walked.value;
      case FullTraces =>
        if cache.backend.None? {
          return Failure(NerNotConfigured);
        }
        var walked := WalkBatch(cache, policy.rules, traces, true);
        if walked.Failure? {
          return walked;
        }
        values := walked.value;
    }
    for i := 0 to |values|
      invariant ChecksUpTo(policy, values, i) == None
    {
      var residue := policy.residue(values[i]);
      if residue > 0 {
        FailureStays(policy, values, i + 1, |values|);
        return Failure(YearResidue(residue));
      }
      if policy.probe(values[i]) {
        FailureStays(policy, values, i + 1, |values|);
        return Failure(ProbeMatch);
      }
    }
    r := Success(values);
  }
}
