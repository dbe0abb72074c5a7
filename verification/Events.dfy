/** The closed taxonomy of reasoning events and the trace component each contributes to (capture/event.rs). */
module Events {
  import opened Wrappers

  datatype EventType =
    | ThoughtStart | SnapshotAndContext | DmaResults | IdmaResult | AspdmaResult | TsaspdmaResult
    | VerbSecondPassResult | ConscienceResult | ActionResult | LlmCall
    | DeferralRouted | DeferralReceived | DeferralResolved | GratitudeSignaled | CreditGenerated

  datatype ComponentType =
    | Observation | Context | Rationale | VerbSecondPass | Conscience | Action | LlmCallComponent
    | DeferralRoutedComponent | DeferralReceivedComponent | DeferralResolvedComponent
    | GratitudeSignaledComponent | CreditGeneratedComponent

  function WireName(e: EventType): string {
    match e
    case ThoughtStart => "THOUGHT_START"
    case SnapshotAndContext => "SNAPSHOT_AND_CONTEXT"
    case DmaResults => "DMA_RESULTS"
    case IdmaResult => "IDMA_RESULT"
    case AspdmaResult => "ASPDMA_RESULT"
    case TsaspdmaResult => "TSASPDMA_RESULT"
    case VerbSecondPassResult => "VERB_SECOND_PASS_RESULT"
    case ConscienceResult => "CONSCIENCE_RESULT"
    case ActionResult => "ACTION_RESULT"
    case LlmCall => "LLM_CALL"
    case DeferralRouted => "DEFERRAL_ROUTED"
    case DeferralReceived => "DEFERRAL_RECEIVED"
    case DeferralResolved => "DEFERRAL_RESOLVED"
    case GratitudeSignaled => "GRATITUDE_SIGNALED"
    case CreditGenerated => "CREDIT_GENERATED"
  }

  function ComponentName(c: ComponentType): string {
    match c
    case Observation => "observation"
    case Context => "context"
    case Rationale => "rationale"
    case VerbSecondPass => "verb_second_pass"
    case Conscience => "conscience"
    case Action => "action"
    case LlmCallComponent => "llm_call"
    case DeferralRoutedComponent => "deferral_routed"
    case DeferralReceivedComponent => "deferral_received"
    case DeferralResolvedComponent => "deferral_resolved"
    case GratitudeSignaledComponent => "gratitude_signaled"
    case CreditGeneratedComponent => "credit_generated"
  }

  function ComponentOf(e: EventType): ComponentType {
    match e
    case ThoughtStart => Observation
    case SnapshotAndContext => Context
    case DmaResults => Rationale
    case IdmaResult => Rationale
    case AspdmaResult => Rationale
    case TsaspdmaResult => Rationale
    case VerbSecondPassResult => VerbSecondPass
    case ConscienceResult => Conscience
    case ActionResult => Action
    case LlmCall => LlmCallComponent
    case DeferralRouted => DeferralRoutedComponent
    case DeferralReceived => DeferralReceivedComponent
    case DeferralResolved => DeferralResolvedComponent
    case GratitudeSignaled => GratitudeSignaledComponent
    case CreditGenerated => CreditGeneratedComponent
  }

  const ALL: seq<EventType> := [
    ThoughtStart, SnapshotAndContext, DmaResults, IdmaResult, AspdmaResult, TsaspdmaResult,
    VerbSecondPassResult, ConscienceResult, ActionResult, LlmCall,
    DeferralRouted, DeferralReceived, DeferralResolved, GratitudeSignaled, CreditGenerated]

  const ENUM_QUALIFIER := "ReasoningEvent."

  function Find(events: seq<EventType>, bare: string): Option<EventType> {
    if events == [] then None
    else if WireName(events[0]) == bare then Some(events[0])
    else Find(events[1..], bare)
  }

  /** The event a raw type string names, in its bare or its enum-qualified form. */
  function Parse(raw: string): Option<EventType> {
    Find(ALL, if ENUM_QUALIFIER <= raw then raw[|ENUM_QUALIFIER|..] else raw)
  }

  predicate SealsTrace(e: EventType) {
    e == ActionResult
  }
}
