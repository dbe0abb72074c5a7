/**
 The content cache in front of the NER backend (`scrub_batch`, scrubber/ner.rs): hits are served
 from the cache, the strings that miss are sent to the model once each, and the results are
 broadcast to every position that asked for them.  The cache is locked twice, once to look up and
 once to store, and other calls may run between the two.

 The specification speaks of any model `f`; `Cache` uses it with the backend's own.
 */
module NerCache {
  import opened Wrappers
  import opened Backend

  datatype ScrubError =
    | NerNotConfigured
    | WalkerDepthExceeded(depth: nat)
    | YearResidue(count: nat)
    | ProbeMatch

  type Entries = map<string, string>

  type Model = string -> string

  function MapAll(f: Model, texts: seq<string>): (out: seq<string>)
    ensures |out| == |texts|
    ensures forall i | 0 <= i < |texts| :: out[i] == f(texts[i])
  {
    seq(|texts|, i requires 0 <= i < |texts| => f(texts[i]))
  }

  /** Every entry is what the model would say. */
  ghost predicate Consistent(f: Model, entries: Entries) {
    forall t | t in entries :: entries[t] == f(t)
  }

  /** `after` holds everything `before` holds. */
  ghost predicate Grown(before: Entries, after: Entries) {
    forall t | t in before :: t in after && after[t] == before[t]
  }

  // ---- One lock section each, as functions of the entries they see --------------------------

  function HitAt(entries: Entries, t: string): Option<string> {
    if t in entries then Some(entries[t]) else None
  }

  /** The strings among the first `n` that miss, each listed at its first occurrence. */
  function MissesUpTo(entries: Entries, texts: seq<string>, n: nat): (misses: seq<string>)
    requires n <= |texts|
    ensures forall i | 0 <= i < n && texts[i] !in entries :: texts[i] in misses
    ensures forall k | 0 <= k < |misses| :: misses[k] in texts && misses[k] !in entries
    ensures forall j, k | 0 <= j < k < |misses| :: misses[j] != misses[k]
  {
    if n == 0 then []
    else
      var before := MissesUpTo(entries, texts, n - 1);
      if texts[n - 1] in entries || texts[n - 1] in before then before else before + [texts[n - 1]]
  }

  function Misses(entries: Entries, texts: seq<string>): (misses: seq<string>)
    ensures forall t :: t in misses <==> t in texts && t !in entries
    ensures forall j, k | 0 <= j < k < |misses| :: misses[j] != misses[k]
    ensures texts == [] ==> misses == []
  {
    MissesUpTo(entries, texts, |texts|)
  }

  function IndexOf(misses: seq<string>, t: string): (k: nat)
    requires t in misses
    ensures k < |misses| && misses[k] == t
  {
    if misses[0] == t then 0 else 1 + IndexOf(misses[1..], t)
  }

  /** Where a missing string finds its result. */
  function SlotAt(entries: Entries, misses: seq<string>, t: string): Option<nat>
    requires t in entries || t in misses
  {
    if t in entries then None else Some(IndexOf(misses, t))
  }

  /** What a call remembers of its lookup. */
  datatype Looked = Looked(hits: seq<Option<string>>, slots: seq<Option<nat>>, misses: seq<string>)

  predicate WellFormed(looked: Looked) {
    && |looked.slots| == |looked.hits|
    && forall i | 0 <= i < |looked.slots| && looked.slots[i].Some? :: looked.slots[i].value < |looked.misses|
  }

  function LookUp(entries: Entries, texts: seq<string>): (looked: Looked)
    ensures WellFormed(looked) && |looked.hits| == |texts| && looked.misses == Misses(entries, texts)
    ensures forall i | 0 <= i < |texts| ::
      && looked.hits[i] == HitAt(entries, texts[i])
      && looked.slots[i] == SlotAt(entries, looked.misses, texts[i])
  {
    var misses := Misses(entries, texts);
    Looked(
      seq(|texts|, i requires 0 <= i < |texts| => HitAt(entries, texts[i])),
      seq(|texts|, i requires 0 <= i < |texts| => SlotAt(entries, misses, texts[i])),
      misses)
  }

  /** The entries after storing the first `n` results. */
  function StoredUpTo(entries: Entries, misses: seq<string>, computed: seq<string>, n: nat): Entries
    requires n <= |misses| && |computed| == |misses|
  {
    if n == 0 then entries else StoredUpTo(entries, misses, computed, n - 1)[misses[n - 1] := computed[n - 1]]
  }

  function Stored(entries: Entries, misses: seq<string>, computed: seq<string>): Entries
    requires |computed| == |misses|
  {
    StoredUpTo(entries, misses, computed, |misses|)
  }

  /** A slot left unfilled would read as the empty string. */
  function FillAt(looked: Looked, computed: seq<string>, i: nat): string
    requires WellFormed(looked) && |computed| == |looked.misses| && i < |looked.hits|
  {
    if looked.slots[i].Some? then computed[looked.slots[i].value]
    else if looked.hits[i].Some? then looked.hits[i].value
    else ""
  }

  function Filled(looked: Looked, computed: seq<string>): (out: seq<string>)
    requires WellFormed(looked) && |computed| == |looked.misses|
    ensures |out| == |looked.hits|
    ensures forall i | 0 <= i < |out| :: out[i] == FillAt(looked, computed, i)
  {
    seq(|looked.hits|, i requires 0 <= i < |looked.hits| => FillAt(looked, computed, i))
  }

  /**
   Looking up in one consistent cache and filling from the model gives the pointwise result; every
   position is filled exactly once, from the cache or from a slot.
   */
  lemma FilledIsModel(f: Model, entries: Entries, texts: seq<string>)
    requires Consistent(f, entries)
    ensures var looked := LookUp(entries, texts);
      && Filled(looked, MapAll(f, looked.misses)) == MapAll(f, texts)
      && forall i | 0 <= i < |texts| :: looked.hits[i].Some? <==> looked.slots[i].None?
  {
  }

  predicate AmongFirst(misses: seq<string>, n: nat, t: string)
    requires n <= |misses|
  {
    exists k :: 0 <= k < n && misses[k] == t
  }

  lemma {:induction false} StoredUpToModel(f: Model, entries: Entries, misses: seq<string>, n: nat)
    requires Consistent(f, entries) && n <= |misses|
    ensures var after := StoredUpTo(entries, misses, MapAll(f, misses), n);
      && Consistent(f, after) && Grown(entries, after)
      && forall t :: t in after <==> t in entries || AmongFirst(misses, n, t)
  {
    if n > 0 {
      StoredUpToModel(f, entries, misses, n - 1);
      forall t ensures AmongFirst(misses, n, t) <==> AmongFirst(misses, n - 1, t) || t == misses[n - 1] {
        hide Consistent, Grown;
        if AmongFirst(misses, n, t) && t != misses[n - 1] {
          var k :| 0 <= k < n && misses[k] == t;
          assert k < n - 1;
        }
      }
    }
  }

  /** Storing the model's answers keeps the cache consistent and adds exactly the missing strings. */
  lemma StoredModel(f: Model, entries: Entries, misses: seq<string>)
    requires Consistent(f, entries)
    ensures var after := Stored(entries, misses, MapAll(f, misses));
      && Consistent(f, after) && Grown(entries, after)
      && forall t :: t in after <==> t in entries || t in misses
  {
    StoredUpToModel(f, entries, misses, |misses|);
    assert forall t :: AmongFirst(misses, |misses|, t) <==> t in misses;
  }

  // ---- Sequential runs: each string reaches the model at most once ---------------------------

  function AfterCall(f: Model, entries: Entries, texts: seq<string>): Entries {
    var misses := Misses(entries, texts);
    Stored(entries, misses, MapAll(f, misses))
  }

  /** The strings sent to the model by a sequence of calls, in order. */
  function Sent(f: Model, entries: Entries, calls: seq<seq<string>>): seq<string>
    decreases |calls|
  {
    if calls == [] then []
    else Misses(entries, calls[0]) + Sent(f, AfterCall(f, entries, calls[0]), calls[1..])
  }

  predicate Asked(calls: seq<seq<string>>, t: string) {
    exists c :: 0 <= c < |calls| && t in calls[c]
  }

  predicate Distinct(s: seq<string>) {
    forall j, k | 0 <= j < k < |s| :: s[j] != s[k]
  }

  lemma AskedCons(calls: seq<seq<string>>, t: string)
    requires calls != []
    ensures Asked(calls, t) <==> t in calls[0] || Asked(calls[1..], t)
  {
  }

  lemma DistinctAppend(a: seq<string>, b: seq<string>)
    requires Distinct(a) && Distinct(b) && forall t | t in b :: t !in a
    ensures Distinct(a + b)
  {
    forall j, k | 0 <= j < k < |a + b| ensures (a + b)[j] != (a + b)[k] {
      if j < |a| <= k { assert b[k - |a|] in b; }
    }
  }

  /** Exactly the strings asked for and not yet cached reach the model, and each of them once. */
  lemma {:induction false} SentOnce(f: Model, entries: Entries, calls: seq<seq<string>>)
    requires Consistent(f, entries)
    ensures Distinct(Sent(f, entries, calls))
    ensures forall t :: t in Sent(f, entries, calls) <==> Asked(calls, t) && t !in entries
    decreases |calls|
  {
    hide Consistent, Asked, Distinct, Stored;
    if calls == [] {
      NoneAsked(calls, Sent(f, entries, calls));
    } else {
      var misses, after := Misses(entries, calls[0]), AfterCall(f, entries, calls[0]);
      StoredModel(f, entries, misses);
      SentOnce(f, after, calls[1..]);
      var rest := Sent(f, after, calls[1..]);
      MissesDistinct(entries, calls[0]);
      DistinctAppend(misses, rest);
      forall t ensures t in misses + rest <==> Asked(calls, t) && t !in entries {
        AskedCons(calls, t);
      }
    }
  }

  lemma NoneAsked(calls: seq<seq<string>>, sent: seq<string>)
    requires calls == [] && sent == []
    ensures Distinct(sent) && forall t :: !Asked(calls, t)
  {
  }

  lemma MissesDistinct(entries: Entries, texts: seq<string>)
    ensures Distinct(Misses(entries, texts))
  {
  }

  // ---- Concurrent runs ------------------------------------------------------------------------

  /** A call before its lookup, between its two lock sections, and after it has returned. */
  datatype Call =
    | Waiting(texts: seq<string>)
    | Computing(texts: seq<string>, looked: Looked)
    | Returned(texts: seq<string>, out: seq<string>)

  datatype State = State(entries: Entries, calls: seq<Call>)

  /** Call `c` takes its next lock section; every other call stands still. */
  ghost predicate Step(f: Model, s: State, s': State, c: nat) {
    && c < |s.calls|
    && match s.calls[c]
       case Waiting(texts) =>
         s' == State(s.entries, s.calls[c := Computing(texts, LookUp(s.entries, texts))])
       case Computing(texts, looked) =>
         && WellFormed(looked)
         && var computed := MapAll(f, looked.misses);
            s' == State(Stored(s.entries, looked.misses, computed),
              s.calls[c := Returned(texts, Filled(looked, computed))])
       case Returned(_, _) => false
  }

  ghost predicate Steps(f: Model, s: State, s': State) {
    exists c :: Step(f, s, s', c)
  }

  ghost predicate Run(f: Model, states: seq<State>) {
    states != [] && forall k | 0 < k < |states| :: Steps(f, states[k - 1], states[k])
  }

  /** What a call knows after its lookup is enough to return the pointwise result. */
  ghost predicate Sound(f: Model, call: Call) {
    match call
    case Waiting(_) => true
    case Computing(texts, looked) => WellFormed(looked) && Filled(looked, MapAll(f, looked.misses)) == MapAll(f, texts)
    case Returned(texts, out) => out == MapAll(f, texts)
  }

  ghost predicate AllSound(f: Model, calls: seq<Call>) {
    forall c | 0 <= c < |calls| :: Sound(f, calls[c])
  }

  /** The calls of `b` are the calls of `a`, further along. */
  predicate SameTexts(a: seq<Call>, b: seq<Call>) {
    |a| == |b| && forall c | 0 <= c < |a| :: a[c].texts == b[c].texts
  }

  lemma StepSafe(f: Model, s: State, s': State, c: nat)
    requires Consistent(f, s.entries) && AllSound(f, s.calls) && Step(f, s, s', c)
    ensures Consistent(f, s'.entries) && AllSound(f, s'.calls)
    ensures Grown(s.entries, s'.entries) && SameTexts(s.calls, s'.calls)
  {
    hide Consistent, Stored;
    match s.calls[c]
    case Waiting(texts) =>
      FilledIsModel(f, s.entries, texts);
    case Computing(texts, looked) =>
      assert Sound(f, s.calls[c]);
      StoredModel(f, s.entries, looked.misses);
  }

  /**
   However the lock sections of any number of calls interleave, every call that returns returns
   the pointwise result, and the cache stays consistent and only grows.
   */
  lemma {:induction false} ConcurrentCallsCorrect(f: Model, states: seq<State>)
    requires Run(f, states) && Consistent(f, states[0].entries)
    requires forall c | 0 <= c < |states[0].calls| :: states[0].calls[c].Waiting?
    ensures var first, last := states[0], states[|states| - 1];
      && Consistent(f, last.entries) && Grown(first.entries, last.entries)
      && SameTexts(first.calls, last.calls) && AllSound(f, last.calls)
  {
    hide Step, Consistent;
    if |states| > 1 {
      var n := |states| - 1;
      var before := states[..n];
      ConcurrentCallsCorrect(f, before);
      assert before[n - 1] == states[n - 1] && Steps(f, states[n - 1], states[n]);
      var c :| Step(f, states[n - 1], states[n], c);
      StepSafe(f, states[n - 1], states[n], c);
    }
  }

  // ---- The cache ------------------------------------------------------------------------------

  /** The backend's model: the scrubbed form of a string. */
  function Clean(ner: Ner): Model
    requires ner.Valid()
  {
    text => ScrubText(ner, text, MAX_TOKENS_PER_CHUNK)
  }

  /** The log holds exactly the cached strings, each once. */
  ghost predicate Logged(entries: Entries, sent: seq<string>) {
    Distinct(sent) && forall t :: t in sent <==> t in entries
  }

  /** What a call sends extends the log by what it adds to the cache. */
  lemma LoggedAfter(f: Model, entries: Entries, sent: seq<string>, texts: seq<string>)
    requires Consistent(f, entries) && Logged(entries, sent)
    ensures Logged(AfterCall(f, entries, texts), sent + Misses(entries, texts))
  {
    hide Consistent, Distinct, Stored;
    StoredModel(f, entries, Misses(entries, texts));
    MissesDistinct(entries, texts);
    DistinctAppend(sent, Misses(entries, texts));
  }

  class Cache {
    var entries: Entries
    const backend: Option<Ner>
    /** Every string the model has been given since the cache was made, in order. */
    ghost var sent: seq<string>

    ghost predicate Valid()
      reads this
    {
      && Logged(entries, sent)
      && (backend.Some? ==> backend.value.Valid() && Consistent(Clean(backend.value), entries))
    }

    constructor (backend: Option<Ner>)
      requires backend.Some? ==> backend.value.Valid()
      ensures Valid() && this.backend == backend && entries == map[] && sent == []
    {
      this.backend := backend;
      entries := map[];
      sent := [];
    }

    /** The only way to the model: what it is given is logged. */
    method AskModel(texts: seq<string>) returns (computed: seq<string>)
      requires backend.Some? && backend.value.Valid()
      modifies this`sent
      ensures sent == old(sent) + texts
      ensures computed == MapAll(Clean(backend.value), texts)
    {
      computed := Backend.ScrubBatch(backend.value, texts, MAX_TOKENS_PER_CHUNK, MAX_BATCH_CHUNKS);
      sent := sent + texts;
      AnswersOf(backend.value, texts, computed);
    }

    /** First lock section: split the positions into hits and misses. */
    method Lookup(texts: seq<string>)
      returns (out: array<Option<string>>, slots: array<Option<nat>>, misses: seq<string>)
      ensures fresh(out) && fresh(slots) && out != slots as object
      ensures Looked(out[..], slots[..], misses) == LookUp(entries, texts)
    {
      hide HitsSoFar, SlotsSoFar, MissesUpTo, LookUp;
      out := new Option<string>[|texts|](_ => None);
      slots := new Option<nat>[|texts|](_ => None);
      misses := [];
      var lookup: map<string, nat> := map[];
      NothingLookedUp(entries, texts, out[..], slots[..]);
      for i := 0 to |texts|
        invariant HitsSoFar(entries, texts, i, out[..])
        invariant SlotsSoFar(entries, texts, i, misses, slots[..])
        invariant misses == MissesUpTo(entries, texts, i)
        invariant Indexes(lookup, misses)
      {
        var t := texts[i];
        LookUpStep(entries, texts, i, out[..], slots[..], misses);
        if t in entries {
          out[i] := Some(entries[t]);
        } else if t in lookup {
          slots[i] := Some(lookup[t]);
        } else {
          IndexAdd(lookup, misses, t);
          lookup := lookup[t := |misses|];
          slots[i] := Some(|misses|);
          misses := misses + [t];
        }
      }
      LookedUp(entries, texts, out[..], slots[..], misses);
    }

    /** Second lock section: keep what the model said. */
    method Store(misses: seq<string>, computed: seq<string>)
      requires |computed| == |misses|
      modifies this`entries
      ensures entries == Stored(old(entries), misses, computed)
    {
      for k := 0 to |misses|
        invariant entries == StoredUpTo(old(entries), misses, computed, k)
      {
        entries := entries[misses[k] := computed[k]];
      }
    }

    /** Scrub a batch of strings through the cache. */
    method ScrubBatch(texts: seq<string>) returns (r: Result<seq<string>, ScrubError>)
      requires Valid()
      modifies this
      ensures Valid() && Grown(old(entries), entries)
      ensures backend.None? ==> r == Failure(NerNotConfigured) && entries == old(entries) && sent == old(sent)
      ensures backend.Some? ==> r == Success(MapAll(Clean(backend.value), texts))
      ensures backend.Some? ==> entries == AfterCall(Clean(backend.value), old(entries), texts)
      ensures backend.Some? ==> sent == old(sent) + Misses(old(entries), texts)
    {
      hide Logged, Clean, Consistent, Grown, LookUp, Filled, WellFormed, StoredUpTo, MissesUpTo;
      if backend.None? {
        NotGrown(entries);
        return Failure(NerNotConfigured);
      }
      if texts == [] {
        NotGrown(entries);
        NothingStored(Clean(backend.value), entries, Misses(entries, texts));
        assert sent + Misses(entries, texts) == sent;
        return Success([]);
      }
      ghost var f := Clean(backend.value);
      ghost var looked := LookUp(entries, texts);
      FilledIsModel(f, entries, texts);
      StoredModel(f, entries, looked.misses);
      LoggedAfter(f, entries, sent, texts);
      var hits, slots, misses := Lookup(texts);
      var computed := [];
      if misses != [] {
        computed := AskModel(misses);
        Store(misses, computed);
      } else {
        NothingStored(f, entries, misses);
        assert sent + misses == sent;
      }
      var results := Broadcast(hits, slots, looked, computed);
      r := Success(results);
    }
  }

  // ---- Steps of the cache's loops --------------------------------------------------------------

  ghost predicate HitsSoFar(entries: Entries, texts: seq<string>, n: nat, hits: seq<Option<string>>) {
    && n <= |texts| == |hits|
    && (forall j | 0 <= j < n :: hits[j] == HitAt(entries, texts[j]))
    && (forall j | n <= j < |hits| :: hits[j] == None)
  }

  ghost predicate SlotsSoFar(
    entries: Entries, texts: seq<string>, n: nat, misses: seq<string>, slots: seq<Option<nat>>) {
    && n <= |texts| == |slots|
    && (forall j | 0 <= j < n && texts[j] in entries :: slots[j] == None)
    && (forall j | 0 <= j < n && texts[j] !in entries ::
          slots[j].Some? && slots[j].value < |misses| && misses[slots[j].value] == texts[j])
    && (forall j | n <= j < |slots| :: slots[j] == None)
  }

  ghost predicate Indexes(lookup: map<string, nat>, misses: seq<string>) {
    && (forall t :: t in lookup <==> t in misses)
    && (forall t | t in lookup :: lookup[t] < |misses| && misses[lookup[t]] == t)
  }

  lemma IndexAdd(lookup: map<string, nat>, misses: seq<string>, t: string)
    requires Indexes(lookup, misses) && t !in lookup
    ensures Indexes(lookup[t := |misses|], misses + [t])
  {
  }

  lemma NothingLookedUp(entries: Entries, texts: seq<string>, hits: seq<Option<string>>, slots: seq<Option<nat>>)
    requires |hits| == |slots| == |texts|
    requires forall j | 0 <= j < |texts| :: hits[j] == None && slots[j] == None
    ensures HitsSoFar(entries, texts, 0, hits) && SlotsSoFar(entries, texts, 0, [], slots)
    ensures MissesUpTo(entries, texts, 0) == []
  {
  }

  lemma LookUpStep(
    entries: Entries, texts: seq<string>, i: nat,
    hits: seq<Option<string>>, slots: seq<Option<nat>>, misses: seq<string>)
    requires i < |texts| && misses == MissesUpTo(entries, texts, i)
    requires HitsSoFar(entries, texts, i, hits) && SlotsSoFar(entries, texts, i, misses, slots)
    ensures i < |hits| && i < |slots|
    ensures texts[i] in entries ==>
      && HitsSoFar(entries, texts, i + 1, hits[i := Some(entries[texts[i]])])
      && SlotsSoFar(entries, texts, i + 1, misses, slots)
      && MissesUpTo(entries, texts, i + 1) == misses
    ensures texts[i] !in entries ==>
      && HitsSoFar(entries, texts, i + 1, hits)
      && (forall k: nat | k < |misses| && misses[k] == texts[i] ::
            SlotsSoFar(entries, texts, i + 1, misses, slots[i := Some(k)]))
      && SlotsSoFar(entries, texts, i + 1, misses + [texts[i]], slots[i := Some(|misses|)])
      && MissesUpTo(entries, texts, i + 1) == if texts[i] in misses then misses else misses + [texts[i]]
  {
    if texts[i] !in entries {
      SlotsExtend(entries, texts, i, misses, slots, misses + [texts[i]], |misses|);
      forall k: nat | k < |misses| && misses[k] == texts[i]
        ensures SlotsSoFar(entries, texts, i + 1, misses, slots[i := Some(k)])
      {
        SlotsExtend(entries, texts, i, misses, slots, misses, k);
      }
    }
  }

  lemma SlotsExtend(
    entries: Entries, texts: seq<string>, i: nat, misses: seq<string>,
    slots: seq<Option<nat>>, longer: seq<string>, k: nat)
    requires i < |texts| && texts[i] !in entries && SlotsSoFar(entries, texts, i, misses, slots)
    requires misses <= longer && k < |longer| && longer[k] == texts[i]
    ensures SlotsSoFar(entries, texts, i + 1, longer, slots[i := Some(k)])
  {
  }

  lemma LookedUp(
    entries: Entries, texts: seq<string>, hits: seq<Option<string>>, slots: seq<Option<nat>>, misses: seq<string>)
    requires HitsSoFar(entries, texts, |texts|, hits) && SlotsSoFar(entries, texts, |texts|, misses, slots)
    requires misses == Misses(entries, texts)
    ensures Looked(hits, slots, misses) == LookUp(entries, texts)
  {
    var looked := LookUp(entries, texts);
    forall i | 0 <= i < |texts| ensures slots[i] == looked.slots[i] {
      if texts[i] !in entries {
        var k := IndexOf(misses, texts[i]);
        assert misses[k] == misses[slots[i].value];
      }
    }
  }

  lemma NotGrown(entries: Entries)
    ensures Grown(entries, entries)
  {
  }

  lemma NothingStored(f: Model, entries: Entries, misses: seq<string>)
    requires misses == []
    ensures Stored(entries, misses, MapAll(f, misses)) == entries
    ensures MapAll(f, []) == []
  {
  }

  lemma AnswersOf(ner: Ner, misses: seq<string>, computed: seq<string>)
    requires ner.Valid() && |computed| == |misses|
    requires forall i | 0 <= i < |misses| :: computed[i] == ScrubText(ner, misses[i], MAX_TOKENS_PER_CHUNK)
    ensures computed == MapAll(Clean(ner), misses)
  {
  }

  /** Fill the missing positions, then read every position out. */
  method Broadcast(hits: array<Option<string>>, slots: array<Option<nat>>, ghost looked: Looked, computed: seq<string>)
    returns (results: seq<string>)
    requires hits != slots as object
    requires hits[..] == looked.hits && slots[..] == looked.slots
    requires WellFormed(looked) && |computed| == |looked.misses|
    requires forall i | 0 <= i < |looked.hits| :: looked.hits[i].Some? <==> looked.slots[i].None?
    modifies hits
    ensures results == Filled(looked, computed)
  {
    assert hits.Length == slots.Length == |looked.hits|;
    for i := 0 to hits.Length
      invariant slots[..] == looked.slots
      invariant forall j | i <= j < hits.Length :: hits[j] == looked.hits[j]
      invariant forall j | 0 <= j < i :: hits[j] == Some(FillAt(looked, computed, j))
    {
      assert slots[i] == looked.slots[i];
      if slots[i].Some? {
        hits[i] := Some(computed[slots[i].value]);
      }
    }
    results := [];
    for i := 0 to hits.Length
      invariant |results| == i
      invariant forall j | 0 <= j < hits.Length :: hits[j] == Some(FillAt(looked, computed, j))
      invariant forall j | 0 <= j < i :: results[j] == FillAt(looked, computed, j)
    {
      results := results + [match hits[i] case Some(s) => s case None => ""];
    }
  }
}
