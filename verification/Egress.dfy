/** The per-upstream egress filter on batch JSON, its composition law and what it reveals (config/egress.rs). */
module Egress {
  import opened Wrappers
  import opened JsonValue

  datatype Level = Generic | Detailed | FullTraces

  datatype Severity = Info | Warning | Critical

  datatype Filter = Filter(
    level: Level,
    minSeverity: Option<Severity>,
    includeDetectionEvents: bool,
    includeScores: bool,
    redactUserPrompts: bool,
    redactCompletions: bool)

  type Members = map<string, Json>

  const SCORE_FIELDS := ["conformity", "k_eff", "n_eff", "cohort_id", "phase"]

  function LevelName(level: Level): string {
    match level
    case Generic => "generic"
    case Detailed => "detailed"
    case FullTraces => "full_traces"
  }

  function SeverityOrd(s: Severity): nat {
    match s
    case Info => 0
    case Warning => 1
    case Critical => 2
  }

  function SeverityOf(name: string): Option<Severity> {
    if name == "info" then Some(Info)
    else if name == "warning" then Some(Warning)
    else if name == "critical" then Some(Critical)
    else None
  }

  // ---- The filter, part by part -------------------------------------------------------------------

  function Redact(d: Members, key: string, redact: bool): Members {
    if redact && key in d then d[key := Null] else d
  }

  function FilterData(d: Members, f: Filter): Members {
    var scored := if f.includeScores then d else d - (set k | k in SCORE_FIELDS);
    Redact(Redact(scored, "user_prompt", f.redactUserPrompts), "llm_completion", f.redactCompletions)
  }

  predicate HasData(c: Json) {
    c.Obj? && "data" in c.members && c.members["data"].Obj?
  }

  function FilterComponent(c: Json, f: Filter): Json {
    if HasData(c) then Obj(c.members["data" := Obj(FilterData(c.members["data"].members, f))]) else c
  }

  predicate KeepsComponent(c: Json, f: Filter) {
    f.includeDetectionEvents || c.GetStr("component_type") != Some("llm_call")
  }

  function KeptComponents(cs: seq<Json>, f: Filter): seq<Json> {
    if cs == [] then []
    else KeptComponents(cs[..|cs| - 1], f) + if KeepsComponent(cs[|cs| - 1], f) then [cs[|cs| - 1]] else []
  }

  function FilterComponents(cs: seq<Json>, f: Filter): (out: seq<Json>)
    ensures |out| == |KeptComponents(cs, f)|
    ensures forall i | 0 <= i < |out| :: out[i] == FilterComponent(KeptComponents(cs, f)[i], f)
  {
    var kept := KeptComponents(cs, f);
    seq(|kept|, i requires 0 <= i < |kept| => FilterComponent(kept[i], f))
  }

  predicate HasComponents(t: Json) {
    t.Obj? && "components" in t.members && t.members["components"].Arr?
  }

  function FilterTrace(t: Json, f: Filter): Json {
    if HasComponents(t) then Obj(t.members["components" := Arr(FilterComponents(t.members["components"].items, f))])
    else t
  }

  /** Below the gate only with a severity that is present, known and lower. */
  predicate KeepsEvent(ev: Json, f: Filter) {
    f.minSeverity.None? ||
    match ev.GetStr("severity")
    case None => true
    case Some(name) =>
      match SeverityOf(name)
      case None => true
      case Some(severity) => SeverityOrd(severity) >= SeverityOrd(f.minSeverity.value)
  }

  function FilterEvent(ev: Json, f: Filter): Json {
    if !ev.Obj? then ev
    else
      var m := ev.members["trace_level" := Str(LevelName(f.level))];
      Obj(if "trace" in m then m["trace" := FilterTrace(m["trace"], f)] else m)
  }

  function KeptEvents(evs: seq<Json>, f: Filter): seq<Json> {
    if evs == [] then []
    else KeptEvents(evs[..|evs| - 1], f) + if KeepsEvent(evs[|evs| - 1], f) then [evs[|evs| - 1]] else []
  }

  function FilterEvents(evs: seq<Json>, f: Filter): (out: seq<Json>)
    ensures |out| == |KeptEvents(evs, f)|
    ensures forall i | 0 <= i < |out| :: out[i] == FilterEvent(KeptEvents(evs, f)[i], f)
  {
    var kept := KeptEvents(evs, f);
    seq(|kept|, i requires 0 <= i < |kept| => FilterEvent(kept[i], f))
  }

  predicate HasEvents(b: Json) {
    b.Obj? && "events" in b.members && b.members["events"].Arr?
  }

  function Apply(b: Json, f: Filter): Json {
    if !b.Obj? then b
    else
      var m := b.members["trace_level" := Str(LevelName(f.level))];
      Obj(if HasEvents(b) then m["events" := Arr(FilterEvents(b.members["events"].items, f))] else m)
  }

  // ---- apply_egress_filter, in place ---------------------------------------------------------------

  method ApplyEgressFilter(batch: Json, f: Filter) returns (r: Json)
    ensures r == Apply(batch, f)
  {
    hide KeepsEvent, FilterEvent;
    if !batch.Obj? {
      return batch;
    }
    var obj := batch.members["trace_level" := Str(LevelName(f.level))];
    if "events" in obj && obj["events"].Arr? {
      var events := obj["events"].items;
      if f.minSeverity.Some? {
        events := RetainEvents(events, f);
      } else {
        AllEventsKept(events, f);
      }
      ghost var kept := events;
      for i := 0 to |events|
        invariant |events| == |kept|
        invariant forall j | 0 <= j < i :: events[j] == FilterEvent(kept[j], f)
        invariant forall j | i <= j < |events| :: events[j] == kept[j]
      {
        var ev := ApplyToEvent(events[i], f);
        events := events[i := ev];
      }
      assert events == FilterEvents(batch.members["events"].items, f);
      obj := obj["events" := Arr(events)];
    }
    r := Obj(obj);
  }

  lemma {:induction false} AllEventsKept(evs: seq<Json>, f: Filter)
    requires f.minSeverity.None?
    ensures KeptEvents(evs, f) == evs
  {
    if evs != [] { AllEventsKept(evs[..|evs| - 1], f); }
  }

  method RetainEvents(evs: seq<Json>, f: Filter) returns (kept: seq<Json>)
    requires f.minSeverity.Some?
    ensures kept == KeptEvents(evs, f)
  {
    var minOrd := SeverityOrd(f.minSeverity.value);
    kept := [];
    for i := 0 to |evs|
      invariant kept == KeptEvents(evs[..i], f)
    {
      assert evs[..i + 1][..i] == evs[..i];
      var keep := true;
      match evs[i].GetStr("severity") {
        case Some(name) =>
          match SeverityOf(name) {
            case Some(severity) => keep := SeverityOrd(severity) >= minOrd;
            case None =>
          }
        case None =>
      }
      if keep {
        kept := kept + [evs[i]];
      }
    }
    assert evs[..|evs|] == evs;
  }

  method ApplyToEvent(ev: Json, f: Filter) returns (r: Json)
    ensures r == FilterEvent(ev, f)
  {
    if !ev.Obj? {
      return ev;
    }
    var m := ev.members["trace_level" := Str(LevelName(f.level))];
    if "trace" in m {
      var trace := ApplyComponentFilters(m["trace"], f);
      m := m["trace" := trace];
    }
    r := Obj(m);
  }

  method ApplyComponentFilters(t: Json, f: Filter) returns (r: Json)
    ensures r == FilterTrace(t, f)
  {
    hide KeepsComponent, FilterComponent, FilterData;
    if !t.Obj? {
      return t;
    }
    if "components" !in t.members || !t.members["components"].Arr? {
      return t;
    }
    var components := t.members["components"].items;
    if !f.includeDetectionEvents {
      components := RetainComponents(components, f);
    } else {
      AllComponentsKept(components, f);
    }
    ghost var kept := components;
    for i := 0 to |components|
      invariant |components| == |kept|
      invariant forall j | 0 <= j < i :: components[j] == FilterComponent(kept[j], f)
      invariant forall j | i <= j < |components| :: components[j] == kept[j]
    {
      var component := ApplyToComponent(components[i], f);
      components := components[i := component];
    }
    assert components == FilterComponents(t.members["components"].items, f);
    r := Obj(t.members["components" := Arr(components)]);
  }

  lemma {:induction false} AllComponentsKept(cs: seq<Json>, f: Filter)
    requires f.includeDetectionEvents
    ensures KeptComponents(cs, f) == cs
  {
    if cs != [] { AllComponentsKept(cs[..|cs| - 1], f); }
  }

  method RetainComponents(cs: seq<Json>, f: Filter) returns (kept: seq<Json>)
    requires !f.includeDetectionEvents
    ensures kept == KeptComponents(cs, f)
  {
    kept := [];
    for i := 0 to |cs|
      invariant kept == KeptComponents(cs[..i], f)
    {
      assert cs[..i + 1][..i] == cs[..i];
      var ct := match cs[i].GetStr("component_type") case Some(name) => name case None => "";
      if ct != "llm_call" {
        kept := kept + [cs[i]];
      }
    }
    assert cs[..|cs|] == cs;
  }

  method ApplyToComponent(c: Json, f: Filter) returns (r: Json)
    ensures r == FilterComponent(c, f)
  {
    if !c.Obj? || "data" !in c.members || !c.members["data"].Obj? {
      return c;
    }
    var original := c.members["data"].members;
    var data := original;
    if !f.includeScores {
      for i := 0 to |SCORE_FIELDS|
        invariant data == original - (set k | k in SCORE_FIELDS[..i])
      {
        data := data - {SCORE_FIELDS[i]};
      }
      assert SCORE_FIELDS[..|SCORE_FIELDS|] == SCORE_FIELDS;
    }
    if f.redactUserPrompts && "user_prompt" in data {
      data := data["user_prompt" := Null];
    }
    if f.redactCompletions && "llm_completion" in data {
      data := data["llm_completion" := Null];
    }
    r := Obj(c.members["data" := Obj(data)]);
  }
}
