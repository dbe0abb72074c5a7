/**
 Laws of the egress filter: filters compose to filters, a filtered batch reveals exactly what the
 filter leaves visible, and redacting to null is deletion once the result is canonicalised.
 */
module EgressLaws {
  import opened Wrappers
  import opened JsonValue
  import opened Seal
  import opened Egress

  // ---- Composition --------------------------------------------------------------------------------

  function StricterGate(a: Option<Severity>, b: Option<Severity>): Option<Severity> {
    match (a, b)
    case (None, _) => b
    case (_, None) => a
    case (Some(s), Some(t)) => if SeverityOrd(s) >= SeverityOrd(t) then a else b
  }

  /** First `f`, then `g`: `g`'s level, the higher gate, what both include, what either redacts. */
  function Combine(f: Filter, g: Filter): Filter {
    Filter(g.level,
           StricterGate(f.minSeverity, g.minSeverity),
           f.includeDetectionEvents && g.includeDetectionEvents,
           f.includeScores && g.includeScores,
           f.redactUserPrompts || g.redactUserPrompts,
           f.redactCompletions || g.redactCompletions)
  }

  predicate Visible(f: Filter, key: string) {
    f.includeScores || key !in SCORE_FIELDS
  }

  predicate Redacted(f: Filter, key: string) {
    (f.redactUserPrompts && key == "user_prompt") || (f.redactCompletions && key == "llm_completion")
  }

  /** What the data filter does to each key on its own. */
  lemma FilterDataAt(d: Members, f: Filter)
    ensures forall k :: k in FilterData(d, f) <==> k in d && Visible(f, k)
    ensures forall k | k in FilterData(d, f) :: FilterData(d, f)[k] == if Redacted(f, k) then Null else d[k]
  {
  }

  lemma DataComposes(d: Members, f: Filter, g: Filter)
    ensures FilterData(FilterData(d, f), g) == FilterData(d, Combine(f, g))
  {
    FilterDataAt(d, f);
    FilterDataAt(FilterData(d, f), g);
    FilterDataAt(d, Combine(f, g));
    hide FilterData;
    assert forall k :: Visible(Combine(f, g), k) <==> Visible(f, k) && Visible(g, k);
    assert forall k :: Redacted(Combine(f, g), k) <==> Redacted(f, k) || Redacted(g, k);
  }

  lemma ComponentComposes(c: Json, f: Filter, g: Filter)
    ensures FilterComponent(FilterComponent(c, f), g) == FilterComponent(c, Combine(f, g))
    ensures KeepsComponent(c, Combine(f, g)) <==> KeepsComponent(c, f) && KeepsComponent(FilterComponent(c, f), g)
  {
    hide FilterData;
    if HasData(c) { DataComposes(c.members["data"].members, f, g); }
  }

  lemma {:induction false} KeptComponentsCompose(cs: seq<Json>, f: Filter, g: Filter)
    ensures FilterComponents(FilterComponents(cs, f), g) == FilterComponents(cs, Combine(f, g))
  {
    hide FilterComponent, KeepsComponent;
    if cs != [] {
      var init, last := cs[..|cs| - 1], cs[|cs| - 1];
      KeptComponentsCompose(init, f, g);
      ComponentComposes(last, f, g);
      if KeepsComponent(last, f) {
        assert FilterComponents(cs, f) == FilterComponents(init, f) + [FilterComponent(last, f)];
        ComponentsSnoc(FilterComponents(init, f), FilterComponent(last, f), g);
      } else {
        assert FilterComponents(cs, f) == FilterComponents(init, f);
      }
      assert cs == init + [last];
      ComponentsSnoc(init, last, Combine(f, g));
    }
  }

  lemma ComponentsSnoc(cs: seq<Json>, last: Json, f: Filter)
    ensures FilterComponents(cs + [last], f) ==
      FilterComponents(cs, f) + if KeepsComponent(last, f) then [FilterComponent(last, f)] else []
  {
  }

  lemma TraceComposes(t: Json, f: Filter, g: Filter)
    ensures FilterTrace(FilterTrace(t, f), g) == FilterTrace(t, Combine(f, g))
  {
    hide FilterComponents;
    if HasComponents(t) { KeptComponentsCompose(t.members["components"].items, f, g); }
  }

  lemma GateComposes(ev: Json, f: Filter, g: Filter)
    ensures KeepsEvent(ev, Combine(f, g)) <==> KeepsEvent(ev, f) && KeepsEvent(FilterEvent(ev, f), g)
  {
    hide FilterTrace, SeverityOf, LevelName;
    assert FilterEvent(ev, f).GetStr("severity") == ev.GetStr("severity");
  }

  lemma EventComposes(ev: Json, f: Filter, g: Filter)
    ensures FilterEvent(FilterEvent(ev, f), g) == FilterEvent(ev, Combine(f, g))
    ensures KeepsEvent(ev, Combine(f, g)) <==> KeepsEvent(ev, f) && KeepsEvent(FilterEvent(ev, f), g)
  {
    GateComposes(ev, f, g);
    assert Combine(f, g).level == g.level;
    hide FilterTrace, LevelName, Combine, KeepsEvent;
    if ev.Obj? {
      if "trace" in ev.members { TraceComposes(ev.members["trace"], f, g); }
      assert FilterEvent(FilterEvent(ev, f), g).members == FilterEvent(ev, Combine(f, g)).members;
    }
  }

  lemma EventsSnoc(evs: seq<Json>, last: Json, f: Filter)
    ensures FilterEvents(evs + [last], f) ==
      FilterEvents(evs, f) + if KeepsEvent(last, f) then [FilterEvent(last, f)] else []
  {
  }

  lemma {:induction false} EventsCompose(evs: seq<Json>, f: Filter, g: Filter)
    ensures FilterEvents(FilterEvents(evs, f), g) == FilterEvents(evs, Combine(f, g))
  {
    hide FilterEvent, KeepsEvent;
    if evs != [] {
      var init, last := evs[..|evs| - 1], evs[|evs| - 1];
      EventsCompose(init, f, g);
      EventComposes(last, f, g);
      if KeepsEvent(last, f) {
        assert FilterEvents(evs, f) == FilterEvents(init, f) + [FilterEvent(last, f)];
        EventsSnoc(FilterEvents(init, f), FilterEvent(last, f), g);
      } else {
        assert FilterEvents(evs, f) == FilterEvents(init, f);
      }
      assert evs == init + [last];
      EventsSnoc(init, last, Combine(f, g));
    }
  }

  /** Filtering by `f` and then by `g` is filtering once, on every value, well-formed or not. */
  lemma FiltersCompose(b: Json, f: Filter, g: Filter)
    ensures Apply(Apply(b, f), g) == Apply(b, Combine(f, g))
  {
    assert Combine(f, g).level == g.level;
    hide FilterEvents, LevelName, Combine;
    if b.Obj? {
      if HasEvents(b) { EventsCompose(b.members["events"].items, f, g); }
      assert Apply(Apply(b, f), g).members == Apply(b, Combine(f, g)).members;
    }
  }

  lemma FilterIdempotent(b: Json, f: Filter)
    ensures Apply(Apply(b, f), f) == Apply(b, f)
  {
    hide Apply;
    FiltersCompose(b, f, f);
    assert Combine(f, f) == f;
  }

  /** `g` lets nothing through that `f` holds back. */
  predicate AtLeastAsStrict(g: Filter, f: Filter) {
    && (f.minSeverity.Some? ==>
          g.minSeverity.Some? && SeverityOrd(g.minSeverity.value) >= SeverityOrd(f.minSeverity.value))
    && (g.includeDetectionEvents ==> f.includeDetectionEvents)
    && (g.includeScores ==> f.includeScores)
    && (f.redactUserPrompts ==> g.redactUserPrompts)
    && (f.redactCompletions ==> g.redactCompletions)
  }

  /** The stricter output can be computed from the looser one. */
  lemma StricterFromLooser(b: Json, f: Filter, g: Filter)
    requires AtLeastAsStrict(g, f)
    ensures Apply(Apply(b, f), g) == Apply(b, g)
  {
    hide Apply;
    FiltersCompose(b, f, g);
    assert Combine(f, g) == g;
  }

  // ---- What a filtered batch reveals ------------------------------------------------------------------

  /** Members other than `key`. */
  function Others(m: Members, key: string): Members {
    m - {key}
  }

  /** Replacing one member hides that member and nothing else. */
  lemma UpdateReveals(m1: Members, m2: Members, key: string, v1: Json, v2: Json)
    ensures m1[key := v1] == m2[key := v2] <==> v1 == v2 && Others(m1, key) == Others(m2, key)
  {
    var u1, u2 := m1[key := v1], m2[key := v2];
    assert Others(u1, key) == Others(m1, key) && Others(u2, key) == Others(m2, key);
    assert u1[key] == v1 && u2[key] == v2;
    if v1 == v2 && Others(m1, key) == Others(m2, key) {
      forall k ensures k in u1 <==> k in u2 {
        assert k != key ==> (k in u1 <==> k in Others(m1, key)) && (k in u2 <==> k in Others(m2, key));
      }
      forall k | k in u1 ensures u1[k] == u2[k] {
        assert k != key ==> Others(m1, key)[k] == u1[k] && Others(m2, key)[k] == u2[k];
      }
    }
  }

  /** Data that differ only in hidden keys and in the contents of redacted ones. */
  ghost predicate SameData(d1: Members, d2: Members, f: Filter) {
    forall k | Visible(f, k) :: (k in d1 <==> k in d2) && (k in d1 && !Redacted(f, k) ==> d1[k] == d2[k])
  }

  ghost predicate SameComponent(c1: Json, c2: Json, f: Filter) {
    if HasData(c1) && HasData(c2) then
      && Others(c1.members, "data") == Others(c2.members, "data")
      && SameData(c1.members["data"].members, c2.members["data"].members, f)
    else c1 == c2
  }

  ghost predicate SameTrace(t1: Json, t2: Json, f: Filter) {
    if HasComponents(t1) && HasComponents(t2) then
      var k1, k2 := KeptComponents(t1.members["components"].items, f),
          KeptComponents(t2.members["components"].items, f);
      && Others(t1.members, "components") == Others(t2.members, "components")
      && |k1| == |k2| && forall i | 0 <= i < |k1| :: SameComponent(k1[i], k2[i], f)
    else t1 == t2
  }

  ghost predicate SameEvent(e1: Json, e2: Json, f: Filter) {
    if e1.Obj? && e2.Obj? then
      && Others(Others(e1.members, "trace_level"), "trace") == Others(Others(e2.members, "trace_level"), "trace")
      && ("trace" in e1.members <==> "trace" in e2.members)
      && ("trace" in e1.members ==> SameTrace(e1.members["trace"], e2.members["trace"], f))
    else e1 == e2
  }

  ghost predicate SameBatch(b1: Json, b2: Json, f: Filter) {
    if !b1.Obj? || !b2.Obj? then b1 == b2
    else if HasEvents(b1) && HasEvents(b2) then
      var k1, k2 := KeptEvents(b1.members["events"].items, f), KeptEvents(b2.members["events"].items, f);
      && Others(Others(b1.members, "trace_level"), "events") == Others(Others(b2.members, "trace_level"), "events")
      && |k1| == |k2| && forall i | 0 <= i < |k1| :: SameEvent(k1[i], k2[i], f)
    else Others(b1.members, "trace_level") == Others(b2.members, "trace_level")
  }

  lemma DataReveals(d1: Members, d2: Members, f: Filter)
    ensures FilterData(d1, f) == FilterData(d2, f) <==> SameData(d1, d2, f)
  {
    FilterDataAt(d1, f);
    FilterDataAt(d2, f);
    hide FilterData, Visible, Redacted;
    var o1, o2 := FilterData(d1, f), FilterData(d2, f);
    if o1 == o2 {
      forall k | Visible(f, k) ensures (k in d1 <==> k in d2) && (k in d1 && !Redacted(f, k) ==> d1[k] == d2[k]) {
        assert k in o1 <==> k in o2;
      }
    }
    if SameData(d1, d2, f) {
      assert o1.Keys == o2.Keys;
    }
  }

  lemma ComponentReveals(c1: Json, c2: Json, f: Filter)
    ensures FilterComponent(c1, f) == FilterComponent(c2, f) <==> SameComponent(c1, c2, f)
  {
    hide FilterData, SameData;
    if HasData(c1) && HasData(c2) {
      var d1, d2 := c1.members["data"].members, c2.members["data"].members;
      DataReveals(d1, d2, f);
      UpdateReveals(c1.members, c2.members, "data", Obj(FilterData(d1, f)), Obj(FilterData(d2, f)));
    }
  }

  lemma TraceReveals(t1: Json, t2: Json, f: Filter)
    ensures FilterTrace(t1, f) == FilterTrace(t2, f) <==> SameTrace(t1, t2, f)
  {
    hide FilterComponent, SameComponent, KeptComponents;
    if HasComponents(t1) && HasComponents(t2) {
      var cs1, cs2 := t1.members["components"].items, t2.members["components"].items;
      UpdateReveals(t1.members, t2.members, "components", Arr(FilterComponents(cs1, f)), Arr(FilterComponents(cs2, f)));
      var k1, k2 := KeptComponents(cs1, f), KeptComponents(cs2, f);
      if |k1| == |k2| {
        forall i | 0 <= i < |k1|
          ensures FilterComponents(cs1, f)[i] == FilterComponents(cs2, f)[i] <==> SameComponent(k1[i], k2[i], f) {
          ComponentReveals(k1[i], k2[i], f);
        }
      }
    }
  }

  lemma OthersOfUpdate(m: Members, k1: string, v: Json, k2: string)
    requires k1 != k2
    ensures Others(m[k1 := v], k2) == Others(m, k2)[k1 := v]
    ensures Others(Others(m, k1), k2) == Others(Others(m, k2), k1)
  {
  }

  lemma EventReveals(e1: Json, e2: Json, f: Filter)
    ensures FilterEvent(e1, f) == FilterEvent(e2, f) <==> SameEvent(e1, e2, f)
  {
    hide FilterTrace, SameTrace, Others, LevelName;
    if e1.Obj? && e2.Obj? {
      var level := Str(LevelName(f.level));
      var m1, m2 := e1.members["trace_level" := level], e2.members["trace_level" := level];
      UpdateReveals(e1.members, e2.members, "trace_level", level, level);
      if "trace" in m1 && "trace" in m2 {
        TraceReveals(m1["trace"], m2["trace"], f);
        UpdateReveals(m1, m2, "trace", FilterTrace(m1["trace"], f), FilterTrace(m2["trace"], f));
        OthersOfUpdate(e1.members, "trace_level", level, "trace");
        OthersOfUpdate(e2.members, "trace_level", level, "trace");
        UpdateReveals(Others(e1.members, "trace"), Others(e2.members, "trace"), "trace_level", level, level);
      } else if "trace" !in m1 && "trace" !in m2 {
        OthersAbsent(e1.members, "trace_level", "trace");
        OthersAbsent(e2.members, "trace_level", "trace");
      } else {
        TraceKept(e1, f);
        TraceKept(e2, f);
      }
    }
  }

  lemma OthersAbsent(m: Members, key: string, absent: string)
    requires absent !in m
    ensures Others(Others(m, key), absent) == Others(m, key)
  {
  }

  lemma TraceKept(ev: Json, f: Filter)
    requires ev.Obj?
    ensures "trace" in FilterEvent(ev, f).members <==> "trace" in ev.members
  {
  }

  /**
   Two batches filter to the same output exactly when they differ only in what the filter removes
   or redacts: levels, events below the gate, detection components, score keys, redacted contents.
   */
  lemma FilterReveals(b1: Json, b2: Json, f: Filter)
    ensures Apply(b1, f) == Apply(b2, f) <==> SameBatch(b1, b2, f)
  {
    hide FilterEvent, SameEvent, Others, LevelName, KeptEvents;
    if b1.Obj? && b2.Obj? {
      var level := Str(LevelName(f.level));
      var m1, m2 := b1.members["trace_level" := level], b2.members["trace_level" := level];
      UpdateReveals(b1.members, b2.members, "trace_level", level, level);
      if HasEvents(b1) && HasEvents(b2) {
        var evs1, evs2 := b1.members["events"].items, b2.members["events"].items;
        UpdateReveals(m1, m2, "events", Arr(FilterEvents(evs1, f)), Arr(FilterEvents(evs2, f)));
        OthersOfUpdate(b1.members, "trace_level", level, "events");
        OthersOfUpdate(b2.members, "trace_level", level, "events");
        UpdateReveals(Others(b1.members, "events"), Others(b2.members, "events"), "trace_level", level, level);
        EventListsReveal(evs1, evs2, f);
      } else if HasEvents(b1) || HasEvents(b2) {
        EventsKeptAsList(b1, f);
        EventsKeptAsList(b2, f);
        EventsOutsideLevel(b1);
        EventsOutsideLevel(b2);
      }
    }
  }

  lemma EventListsReveal(evs1: seq<Json>, evs2: seq<Json>, f: Filter)
    ensures FilterEvents(evs1, f) == FilterEvents(evs2, f) <==>
      var k1, k2 := KeptEvents(evs1, f), KeptEvents(evs2, f);
      |k1| == |k2| && forall i | 0 <= i < |k1| :: SameEvent(k1[i], k2[i], f)
  {
    hide FilterEvent, SameEvent, KeptEvents;
    var k1, k2 := KeptEvents(evs1, f), KeptEvents(evs2, f);
    if |k1| == |k2| {
      forall i | 0 <= i < |k1|
        ensures FilterEvents(evs1, f)[i] == FilterEvents(evs2, f)[i] <==> SameEvent(k1[i], k2[i], f) {
        EventReveals(k1[i], k2[i], f);
      }
    }
  }

  lemma EventsKeptAsList(b: Json, f: Filter)
    requires b.Obj?
    ensures HasEvents(Apply(b, f)) <==> HasEvents(b)
  {
  }

  lemma EventsOutsideLevel(b: Json)
    requires b.Obj?
    ensures HasEvents(Obj(Others(b.members, "trace_level"))) <==> HasEvents(b)
  {
  }

  // ---- Redaction and canonicalisation ---------------------------------------------------------------------

  /** The variant of the filter that deletes what the real one nulls. */
  function DeleteData(d: Members, f: Filter): Members {
    map k | k in d && Visible(f, k) && !Redacted(f, k) :: d[k]
  }

  function DeleteComponent(c: Json, f: Filter): Json {
    if HasData(c) then Obj(c.members["data" := Obj(DeleteData(c.members["data"].members, f))]) else c
  }

  lemma NullStripsAway(d: Members, f: Filter)
    ensures Strip(Obj(FilterData(d, f))) == Strip(Obj(DeleteData(d, f)))
  {
    FilterDataAt(d, f);
    hide FilterData, Visible, Redacted;
    assert IsEmpty(Strip(Null));
    assert Strip(Obj(FilterData(d, f))).members == Strip(Obj(DeleteData(d, f))).members;
  }

  /** Once canonicalised, a redacted component is the component with the redacted keys deleted. */
  lemma RedactionIsDeletion(c: Json, f: Filter)
    ensures Strip(FilterComponent(c, f)) == Strip(DeleteComponent(c, f))
  {
    hide FilterData, DeleteData;
    if HasData(c) {
      NullStripsAway(c.members["data"].members, f);
      assert Strip(FilterComponent(c, f)).members == Strip(DeleteComponent(c, f)).members;
    }
  }

  // ---- What the filter does, in the words of the wire ---------------------------------------------------

  /** The severity an event carries is known and lies below the gate. */
  predicate BelowGate(ev: Json, f: Filter) {
    match (ev.GetStr("severity"), f.minSeverity)
    case (Some(name), Some(gate)) =>
      || (name == "info" && gate == Warning)
      || (name == "info" && gate == Critical)
      || (name == "warning" && gate == Critical)
    case _ => false
  }

  lemma GateReads(ev: Json, f: Filter)
    ensures KeepsEvent(ev, f) <==> !BelowGate(ev, f)
  {
  }

  lemma {:induction false} EventsAppend(a: seq<Json>, b: seq<Json>, f: Filter)
    ensures FilterEvents(a + b, f) == FilterEvents(a, f) + FilterEvents(b, f)
  {
    hide FilterEvent, KeepsEvent;
    if b == [] {
      assert a + b == a;
      assert FilterEvents(b, f) == [];
    } else {
      var init, last := b[..|b| - 1], b[|b| - 1];
      assert b == init + [last] && a + b == (a + init) + [last];
      EventsAppend(a, init, f);
      EventsSnoc(a + init, last, f);
      EventsSnoc(init, last, f);
    }
  }

  /** An event goes exactly when it is below the gate; the others stay in their order, each filtered. */
  lemma EventsPiecewise(a: seq<Json>, ev: Json, b: seq<Json>, f: Filter)
    ensures FilterEvents(a + [ev] + b, f) ==
      FilterEvents(a, f) + (if BelowGate(ev, f) then [] else [FilterEvent(ev, f)]) + FilterEvents(b, f)
    ensures FilterEvents([], f) == []
  {
    hide FilterEvent, KeepsEvent, BelowGate, FilterEvents;
    GateReads(ev, f);
    EventsAppend(a + [ev], b, f);
    EventsSnoc(a, ev, f);
    NoEvents(f);
  }

  lemma NoEvents(f: Filter)
    ensures FilterEvents([], f) == []
  {
  }

  /** The level on the wire. */
  function Stamp(f: Filter): Json {
    Str(if f.level == Generic then "generic" else if f.level == Detailed then "detailed" else "full_traces")
  }

  /** A batch is stamped with the level and keeps everything but its events. */
  lemma BatchReads(b: Json, f: Filter, k: string)
    ensures !b.Obj? ==> Apply(b, f) == b
    ensures b.Obj? ==>
      Apply(b, f).Get(k) ==
        if k == "trace_level" then Some(Stamp(f))
        else if k == "events" && b.Get(k).Some? && b.Get(k).value.Arr? then
          Some(Arr(FilterEvents(b.Get(k).value.items, f)))
        else b.Get(k)
  {
    hide FilterEvents;
  }

  /** So is every event that is an object, and only its trace is filtered. */
  lemma EventReads(ev: Json, f: Filter, k: string)
    ensures !ev.Obj? ==> FilterEvent(ev, f) == ev
    ensures ev.Obj? ==>
      FilterEvent(ev, f).Get(k) ==
        if k == "trace_level" then Some(Stamp(f))
        else if k == "trace" && ev.Get(k).Some? then Some(FilterTrace(ev.Get(k).value, f))
        else ev.Get(k)
  {
    hide FilterTrace;
  }

  /** Of a trace only the list of components changes. */
  lemma TraceReads(t: Json, f: Filter, k: string)
    ensures !t.Obj? ==> FilterTrace(t, f) == t
    ensures FilterTrace(t, f).Get(k) ==
      if k == "components" && t.Get(k).Some? && t.Get(k).value.Arr? then
        Some(Arr(FilterComponents(t.Get(k).value.items, f)))
      else t.Get(k)
  {
    hide FilterComponents;
  }

  lemma {:induction false} ComponentsAppend(a: seq<Json>, b: seq<Json>, f: Filter)
    ensures FilterComponents(a + b, f) == FilterComponents(a, f) + FilterComponents(b, f)
  {
    hide FilterComponent, KeepsComponent;
    if b == [] {
      assert a + b == a;
      assert FilterComponents(b, f) == [];
    } else {
      var init, last := b[..|b| - 1], b[|b| - 1];
      assert b == init + [last] && a + b == (a + init) + [last];
      ComponentsAppend(a, init, f);
      ComponentsSnoc(a + init, last, f);
      ComponentsSnoc(init, last, f);
    }
  }

  /** A component goes exactly when detection events are left out and its type is "llm_call". */
  lemma ComponentsPiecewise(a: seq<Json>, c: Json, b: seq<Json>, f: Filter)
    ensures FilterComponents(a + [c] + b, f) ==
      FilterComponents(a, f)
      + (if !f.includeDetectionEvents && c.Get("component_type") == Some(Str("llm_call")) then []
         else [FilterComponent(c, f)])
      + FilterComponents(b, f)
    ensures FilterComponents([], f) == []
  {
    hide FilterComponent, FilterComponents;
    ComponentsAppend(a + [c], b, f);
    ComponentsSnoc(a, c, f);
    NoComponents(f);
  }

  lemma NoComponents(f: Filter)
    ensures FilterComponents([], f) == []
  {
  }

  /** Of the data only the score fields go, and only the two texts are nulled. */
  lemma DataReads(d: Members, f: Filter, k: string)
    ensures Obj(FilterData(d, f)).Get(k) ==
      if !f.includeScores && k in {"conformity", "k_eff", "n_eff", "cohort_id", "phase"} then None
      else if k in d && f.redactUserPrompts && k == "user_prompt" then Some(Null)
      else if k in d && f.redactCompletions && k == "llm_completion" then Some(Null)
      else Obj(d).Get(k)
  {
    FilterDataAt(d, f);
    hide FilterData;
  }

  /** Of a component only the data change. */
  lemma ComponentReads(c: Json, f: Filter, k: string)
    ensures k != "data" ==> FilterComponent(c, f).Get(k) == c.Get(k)
    ensures c.Get("data").None? || !c.Get("data").value.Obj? ==> FilterComponent(c, f) == c
    ensures c.Get("data").Some? && c.Get("data").value.Obj? ==>
      FilterComponent(c, f).Get("data") == Some(Obj(FilterData(c.Get("data").value.members, f)))
  {
    hide FilterData;
  }
}
