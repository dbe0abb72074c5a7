# Lens core: scrubbing, capture, egress, scoring and retention

This project models five components of a lens that turns the reasoning events of agents into signed,
consented, privacy-scrubbed trace batches and scores cohorts of them.

* **Scrubbing** (`Spans`, `Splice`, `Backend`, `NerCache`, `Walker`, `Scrubber`, `SpanLaws`, `WalkLaws`). Eligible strings are
  collected from a JSON tree, deduplicated against a content cache, cut into token windows, sorted by
  length, labelled in padded buckets, collapsed to spans, replaced by numbered placeholders and put
  back by a second walk. All of it is proved equal to one function applied to each string leaf, and no
  byte of a labelled token survives.
* **Capture, consent and sealing** (`Events`, `Partial`, `PartialRuns`, `Consent`, `Seal`, `Batch`,
  `Clients`, `ClientRuns`, `CaptureLaws`). A mutable store assembles interleaved events into traces; a consent gate
  runs at every seal; two clients build the same signed batch. The store is proved to be the history of
  each thought, the two clients simulate each other, and emission is characterised exactly over every
  run of attestations, events and sweeps.
* **Egress** (`Egress`, `EgressLaws`). The per-upstream filter on batch JSON, its composition law, and
  exactly what its output reveals.
* **Scoring** (`Concentration`, `AxisScore`, `Manifold`). Concentration metrics, threshold scoring and
  the Mahalanobis scorer over exact reals.
* **Retention** (`Eviction`). The planner, the drain loop and the effect of repeated passes.

Each imperative routine is a method proved against a specification function; the properties are lemmas
about that function. `SpanLaws`, `WalkLaws`, `CaptureLaws` and the end of `EgressLaws` fix what those
functions mean in the words of their inputs: strings, bytes, paths and member names. `Wrappers`, `Ordering`, `JsonValue`, `Sorting`, `Sums`, `Reals` and `Floats` hold
what the components share.

## Conventions

* A Rust `String` is its UTF-8 bytes, one `char` a byte, so lengths and offsets are byte counts and
  character boundaries are a predicate on bytes.
* A JSON object is the map of its members, iterated in increasing byte order of the keys. That is the
  order of the `serde_json` map without its `preserve_order` feature, which `Cargo.toml:53` does not
  enable. A JSON number is a real.
* The tokenizer, the model, the regex pass, the blank test, the residue and probe checks, the
  canonicalizer, the signer, the timestamp parser and formatter and the square root are function
  parameters. Assumed of them: token offsets are ordered, in bounds and on character boundaries
  (`Backend.Ner.Valid`, which also says that a padded row starts with the labels of its own chunk);
  the signer of the Python host returns 64 bytes (`ClientRuns.SignsEd25519`); the root is a root
  (`Manifold.IsSqrt`).
* Token coverage is stated over the tokens that the tokenizer returns; it may truncate a chunk.
* Attempt counters wrap at 2^32 and the tee counter at 2^64. Other counts are unbounded.
* Scores are exact reals; a float input is a number or NaN, and infinities are not represented.
* Clock readings are parameters, in nanoseconds where they are computed with.

## Where the code and its documentation differ

* The consent gate is documented never to fall back to config after a withdrawal. It does when a newer
  row of an unknown kind follows: `Consent.UnknownKindRevivesConfig` is the run, and
  `Consent.NewestRowDecides` says exactly when the config is consulted.
* The severity ramp is documented as monotone. On a corridor axis it follows the upper pole only: below
  the corridor a lower metric never scores worse (`AxisScore.LowerPoleNeverWorsens`), and it scores
  better when the lower bound lies above the threshold (`AxisScore.LowerPoleImproves` is an input;
  loading a calibration checks no bounds). `AxisScore.LowerPoleMonotoneIff` says exactly when falling
  further never improves the score. The ceiling for unbounded metrics is twice the threshold, not the
  metric itself.
* A NaN in a population makes the Gini coefficient NaN, not undefined, and the axis then reads as in-band
  (`AxisScore.NaNReadsInBand`).
* A trace table with a single row is documented to get no disk cutoff. It gets one, and loses nothing
  to it (`Eviction.CutoffIff`). Disk eviction stalls once the window is below two nanoseconds,
  however full the disk is (`Eviction.PressureStalls`).

## Model

| member | source | states |
|---|---|---|
| Spans.CollapseBio | patterns_from_cirislens_core/scrubber/ner.rs:237-282 | The single pass with one span in progress lists exactly the maximal BIO runs: a span opens at every labelled token that does not continue its left neighbour, and ends with the last token that continues it |
| SpanLaws.LabelReads | patterns_from_cirislens_core/scrubber/ner.rs:246-266 | What a position means, from the label string: a label P-T belongs to tag T and is inside exactly when P is "I", a bare label is inside the tag of its name, and no label means a special token, an unknown id or "O" |
| SpanLaws.SpansAreMaximalRuns | patterns_from_cirislens_core/scrubber/ner.rs:237-282 | A span is listed if and only if it is a maximal run: neighbouring tokens of one tag, all but the first inside, that neither side could extend |
| Spans.TokenHasRun | patterns_from_cirislens_core/scrubber/ner.rs:237-282 | Every token labelled non-O lies inside a run that some token opens |
| Spans.TokenInSpan | patterns_from_cirislens_core/scrubber/ner.rs:237-282 | The bytes of every labelled token lie inside a listed span of the same tag |
| Spans.SpanEnds | patterns_from_cirislens_core/scrubber/ner.rs:237-282 | Every span starts and ends at the edge of some labelled token |
| Spans.RunSpansStrict | patterns_from_cirislens_core/scrubber/ner.rs:237-282 | With offsets in order, the spans are non-empty, in bounds, in order and disjoint |
| Spans.PaddingIgnored | patterns_from_cirislens_core/scrubber/ner.rs:617-625 | Labels past the last offset, which padding produces, change nothing |
| Splice.ReplaceSpans | patterns_from_cirislens_core/scrubber/ner.rs:287-319 | Sort, pass over misfits, copy and number in one loop: the output is the redaction of the text by the greedily chosen spans. It holds for every list of spans the program can slice by: overlapping ones, ones out of bounds, and ones that end before they start |
| Splice.AcceptLaid | patterns_from_cirislens_core/scrubber/ner.rs:287-319 | The greedily chosen spans are in order, disjoint and in bounds if and only if none of them ends before it starts |
| Splice.UnsliceableIsChosen | patterns_from_cirislens_core/scrubber/ner.rs:304-308 | A span that starts past the end of the text and ends inside it is always chosen, so the one requirement of ReplaceSpans excludes exactly the lists on which the slice index is out of range |
| Splice.CopiedLength | patterns_from_cirislens_core/scrubber/ner.rs:287-319 | For any such list, the bytes copied and the widths of the chosen spans add up to the text: a span that ends before it starts has the bytes between copied once more |
| Splice.AcceptAll | patterns_from_cirislens_core/scrubber/ner.rs:287-319 | Spans that are already laid out are all used |
| SpanLaws.UsedOrExcused | patterns_from_cirislens_core/scrubber/ner.rs:301-307 | A span is passed over only because it leaves the text or starts inside a span that is used |
| SpanLaws.MarkerReads | patterns_from_cirislens_core/scrubber/ner.rs:309-311 | A marker is the tag, an underscore and the number in square brackets, the number in decimal digits without a leading zero |
| SpanLaws.RankCounts | patterns_from_cirislens_core/scrubber/ner.rs:296-311 | The number of a marker is how many used spans of its tag there are up to and including its own |
| SpanLaws.BoundaryReads | patterns_from_cirislens_core/scrubber/ner.rs:308-308 | A cut is refused exactly where the next byte is a UTF-8 continuation byte |
| Splice.RedactionExact | patterns_from_cirislens_core/scrubber/ner.rs:287-319 | The copied bytes are exactly the uncovered bytes, once and in order; there is one placeholder a span, numbered by its rank within its tag, standing exactly where its span stood |
| Backend.PreChunk | patterns_from_cirislens_core/scrubber/ner.rs:472-497 | The window loop yields the chunks of consecutive token windows |
| Backend.ChunksCut | patterns_from_cirislens_core/scrubber/ner.rs:472-497 | The chunks are non-empty, cut at character boundaries, in order and disjoint, for every window size |
| SpanLaws.ChunksAreWindows | patterns_from_cirislens_core/scrubber/ner.rs:484-494 | A chunk is listed if and only if it is the non-empty text of a window: exactly the window size in tokens, counted from the first token on, fewer in the last |
| SpanLaws.TokenInChunk | patterns_from_cirislens_core/scrubber/ner.rs:484-494 | Every token of the text that is not empty lies inside one of its chunks, so the model sees all of it |
| Backend.RunBatch | patterns_from_cirislens_core/scrubber/ner.rs:549-627 | One padded bucket appends to every text exactly the spans of its own chunks, translated by the chunk offset |
| Backend.LabelChunks | patterns_from_cirislens_core/scrubber/ner.rs:534-547 | Running the chunks in buckets of any size gives every text the spans its chunks have alone, in processing order |
| Backend.GatheredPermuted | patterns_from_cirislens_core/scrubber/ner.rs:499-547 | Rearranging the chunks of all texts does not change the multiset of spans any text receives |
| Backend.SpansRecovered | patterns_from_cirislens_core/scrubber/ner.rs:287-319 | Sorting by start undoes any rearrangement of the spans of a text |
| Backend.OrderIsInvisible | patterns_from_cirislens_core/scrubber/ner.rs:499-547 | Any order of all chunks ends with the same spans used for each text as labelling that text alone, in text order |
| Backend.ScrubBatch | patterns_from_cirislens_core/scrubber/ner.rs:499-547 | Sorting by length and bucketing, of any size, is invisible: each output is what scrubbing that text alone gives |
| Backend.LabelledTokenCovered | patterns_from_cirislens_core/scrubber/ner.rs:549-627 | Every byte of every labelled token of every chunk is covered by a span of the text, and so never copied |
| SpanLaws.CoveredExactly | patterns_from_cirislens_core/scrubber/ner.rs:549-627 | A byte of a text is taken out if and only if it lies in a maximal labelled run of one of its chunks |
| Backend.ScrubbedExact | patterns_from_cirislens_core/scrubber/ner.rs:287-319 | A scrubbed text is the bytes outside its spans, once and in order, and one numbered marker where each span stood; with the row above, no byte of a labelled token is copied |
| Backend.TextSpansStrict | patterns_from_cirislens_core/scrubber/ner.rs:549-627 | The spans of a text are disjoint, in order, in bounds and on character boundaries |
| NerCache.Cache.ScrubBatch | patterns_from_cirislens_core/scrubber/ner.rs:119-190 | From any reachable cache a call returns the pointwise model result, or NerNotConfigured without a backend; it gives the model exactly the missing strings, the cache stays consistent and grows by exactly those, and the log of what the model was ever given holds each cached string once and nothing else |
| NerCache.Cache.Lookup | patterns_from_cirislens_core/scrubber/ner.rs:119-165 | The first lock section splits positions into hits and slots of a duplicate-free miss list |
| NerCache.Cache.Store | patterns_from_cirislens_core/scrubber/ner.rs:166-190 | The second lock section stores each miss with its answer |
| NerCache.Broadcast | patterns_from_cirislens_core/scrubber/ner.rs:166-190 | The read-out fills every missing position from its slot; no position is left at the default |
| NerCache.FilledIsModel | patterns_from_cirislens_core/scrubber/ner.rs:119-190 | Hits and slots from one consistent cache, filled from the model, give the pointwise result, and every position has exactly one source |
| NerCache.StoredModel | patterns_from_cirislens_core/scrubber/ner.rs:166-190 | Storing keeps the cache consistent and adds exactly the misses |
| NerCache.SentOnce | patterns_from_cirislens_core/scrubber/ner.rs:119-190 | Over any sequence of calls the log extends by exactly the strings asked for and not cached, each of them once |
| NerCache.Cache.AskModel | patterns_from_cirislens_core/scrubber/ner.rs:119-190 | The only way to the model: its answers are the pointwise ones, and what it is given is logged |
| NerCache.LoggedAfter | patterns_from_cirislens_core/scrubber/ner.rs:119-190 | What a call sends is disjoint from everything sent before, and brings the log level with the cache |
| NerCache.ConcurrentCallsCorrect | patterns_from_cirislens_core/scrubber/ner.rs:119-190 | However the two lock sections of any number of calls interleave, every returned result is the pointwise one, the cache stays consistent and only grows |
| Walker.LooksLikeSchemaLabel | patterns_from_cirislens_core/scrubber/walker.rs:122-142 | The three-flag scan decides: at most 24 bytes, all ASCII, no upper case and no ASCII white space |
| Walker.Collector.Collect | patterns_from_cirislens_core/scrubber/walker.rs:144-174 | The first pass appends the eligible strings in walk order, and fails exactly when some node lies deeper than 30 |
| Walker.Inject | patterns_from_cirislens_core/scrubber/walker.rs:178-251 | The second pass rebuilds the value from the front of the outputs, and fails exactly when some node lies deeper than 30 |
| Walker.InjectUndoesCollect | patterns_from_cirislens_core/scrubber/walker.rs:144-251 | Fed the answers to the strings collected, the second pass consumes exactly those, in order, never runs dry, and equals one recursive map over the string leaves |
| Walker.WalkRegexOnly | patterns_from_cirislens_core/scrubber/walker.rs:255-294 | The regex-only walk is that leaf map with nothing in scope, or the depth error |
| WalkLaws.LeafAtPath | patterns_from_cirislens_core/scrubber/walker.rs:122-251 | Path by path: a string is given to the model if and only if some key above it, however far, is a field to scrub and it is neither blank nor a short lower-case label; whatever is not blank then gets the regex pass, and nothing else changes |
| WalkLaws.RegexAtPath | patterns_from_cirislens_core/scrubber/walker.rs:255-294 | Without the model every string that is not blank gets the regex pass, wherever it stands |
| WalkLaws.ModelReads | patterns_from_cirislens_core/scrubber/ner.rs:455-466 | The model of the walk scrubs each string alone, in windows of 192 tokens |
| WalkLaws.SchemaLabelIff | patterns_from_cirislens_core/scrubber/walker.rs:122-142 | The label test in byte values |
| WalkLaws.ShallowIff | patterns_from_cirislens_core/scrubber/walker.rs:144-251 | A value is not too deep if and only if no path in it has more than 30 steps |
| Scrubber.Walk | patterns_from_cirislens_core/scrubber/walker.rs:27-59 | A walk gives the leaf map of the value through the cache; it errs exactly when too deep, or when a string needs a model that is not there |
| Scrubber.CollectBatch | patterns_from_cirislens_core/scrubber/walker.rs:67-90 | The flat input list is the concatenation of what each trace collects, and the boundaries are its partial lengths |
| Scrubber.SliceOfTrace | patterns_from_cirislens_core/scrubber/walker.rs:91-108 | Every boundary pair is in range and cuts out exactly the strings of its trace |
| Scrubber.InjectBatch | patterns_from_cirislens_core/scrubber/walker.rs:91-108 | Slices of the flat answer list give every trace its own leaf map |
| Scrubber.WalkBatch | patterns_from_cirislens_core/scrubber/walker.rs:67-108 | The batch walk gives the leaf map of every value, or the exact error; the model is given the missing strings of the whole batch, each once |
| Scrubber.BatchAgrees | patterns_from_cirislens_core/scrubber/walker.rs:67-108 | The batch walk fails only as one of its traces would alone, and otherwise gives every trace the value it gets alone |
| Scrubber.ScrubTrace | patterns_from_cirislens_core/scrubber/mod.rs:105-149 | One trace: pass-through at generic, regex walk at detailed, full walk at full_traces, then the residue and probe checks, with the error of each |
| WalkLaws.LetThroughIff | patterns_from_cirislens_core/scrubber/mod.rs:105-149 | A trace below generic is let through if and only if the model it needs is there, no path has more than 30 steps, and its scrubbed form shows no historical year and no probe; a generic one as it is |
| WalkLaws.RefusalReads | patterns_from_cirislens_core/scrubber/mod.rs:105-149 | Which error a refused trace gets, and which takes precedence |
| Scrubber.ScrubTracesBatch | patterns_from_cirislens_core/scrubber/mod.rs:151-201 | The batch succeeds exactly when every trace alone does, with the same values in order; otherwise it reports the error of a trace that cannot be walked, if there is one, and else of the first trace that does not pass its checks |
| Scrubber.TracesAgree | patterns_from_cirislens_core/scrubber/mod.rs:151-201 | The exact outcome of the batch, walks before checks, against the outcomes of its traces alone |
| Partial.PartialTraceStore.Capture | src/capture/partial.rs:207-277 | The in-place update of both maps is the one-event step of the store, for every event, unrecognised ones included |
| CaptureLaws.ParseReads | src/capture/event.rs:205-222 | A raw event type is read as an event if and only if it is its wire name, bare or behind "ReasoningEvent." |
| CaptureLaws.SealsExactly | src/capture/partial.rs:207-277 | An event seals its trace if and only if it is named ACTION_RESULT, bare or qualified, and one of no known name changes nothing |
| CaptureLaws.NamesRead | src/capture/event.rs:107-204 | The wire name of each event and the component type it contributes to |
| Partial.PartialTraceStore.OrphanSweep | src/capture/partial.rs:284-303 | The sweep removes exactly the traces that have outlived the limit, with their counters, and returns how many |
| Partial.SweptIff | src/capture/partial.rs:284-303 | In nanoseconds: an active trace goes if and only if its start is unreadable or, for a limit of m seconds, m + 1 seconds past (for a negative limit: less than that far ahead); all its counters go, all others and all other traces stay as they are |
| PartialRuns.StoreIsHistory | src/capture/partial.rs:207-303 | After any run the store holds, for each thought, exactly the assembly of its events since the last seal or purge: first non-absent task id and level, components in order, attempt indices |
| PartialRuns.SealedTracesAreSegments | src/capture/partial.rs:207-277 | The traces a run seals for a thought are the assembled, completed segments of its history, in order |
| CaptureLaws.FirstPresentReads | src/capture/partial.rs:236-258 | The first non-absent value is the one at the first position that has one |
| CaptureLaws.FreshReads | src/capture/partial.rs:207-265 | What the first event of a thought opens, field by field |
| CaptureLaws.LaterReads | src/capture/partial.rs:207-277 | What a later event changes: one component behind the others, the first task id and level that come; one that seals also completes the trace at its own time and clears the thought |
| CaptureLaws.CountReads | src/capture/partial.rs:212-219 | The number of a component counts those of its own kind before it |
| PartialRuns.ThoughtsAreIndependent | src/capture/partial.rs:207-303 | Whatever is interleaved, sealed traces and remaining state of a thought are those of the run of its own events and the sweeps |
| PartialRuns.EventsConserved | src/capture/partial.rs:207-303 | Sealed, purged and pending events together are the recognised events of the thought, in order, each once |
| PartialRuns.SealingStandsLast | src/capture/partial.rs:243-277 | A sealed segment has exactly one ACTION_RESULT, its last event; pending and purged ones have none |
| PartialRuns.ReachableStore | src/capture/partial.rs:207-303 | Invariant of every reachable store: a counter exists exactly for an active trace and counts its components of that kind, the k-th of which has index k (modulo 2^32); no active trace holds an ACTION_RESULT or a completion time |
| Consent.ResolveGrant | src/capture/consent.rs:161-199 | The filter-and-sort method gives the verdict on the matching rows, and so that of the newest of them |
| Consent.GrantIsNewest | src/capture/consent.rs:161-199 | The grant is decided by the newest matching row alone: newest by time, then by id in byte order; "scores" and "supersedes" grant, "withdraws" and "recants" withdraw, anything else counts as absent |
| Consent.GrantAbsent | src/capture/consent.rs:161-199 | Without a row on the dimension there is no grant |
| Ordering.LexIsByteOrder | src/capture/consent.rs:181-185 | The comparison of ids is byte order: the first difference decides, and a proper prefix comes first |
| Consent.NewestExists | src/capture/consent.rs:161-199 | With unique ids some matching row is newest |
| Consent.GrantOrderFree | src/capture/consent.rs:161-199 | Row order and rows on other dimensions make no difference |
| Consent.NewestRowDecides | src/capture/consent.rs:161-230 | A newest row that grants gives its own time, one that withdraws blocks whatever the config, and one of an unknown kind leaves it to the config, which permits if and only if its timestamp is not empty |
| Consent.NoRowConfigDecides | src/capture/consent.rs:216-230 | Without a row on the dimension the config decides, permitting if and only if its timestamp is not empty |
| Consent.UnknownKindRevivesConfig | src/capture/consent.rs:190-230 | A concrete run in which a withdrawal followed by a row of an unknown kind falls back to the config |
| Seal.StripEmpty | src/capture/seal.rs:78-98 | The recursive rebuild with a local map and list computes the stripped value |
| CaptureLaws.StripArrays | src/capture/seal.rs:90-95 | Of an array exactly the nulls go: item by item, in order, everything else leaves its stripped form, even an empty one |
| CaptureLaws.StripObjects | src/capture/seal.rs:80-89 | Of an object exactly the members go whose stripped value is null, "", [] or {} |
| CaptureLaws.StripScalars | src/capture/seal.rs:96-97 | Anything else is kept, false and 0 included |
| Seal.StripIdempotent | src/capture/seal.rs:78-98 | Stripping twice is stripping once |
| Seal.FixedPointsAreClean | src/capture/seal.rs:78-111 | The fixed points are exactly the values with no empty object member and no null array element anywhere |
| Seal.StrippedIsClean | src/capture/seal.rs:78-111 | Whatever is stripped is such a value |
| Seal.StrippedObjectsAgree | src/capture/seal.rs:78-98 | Objects with the same keys strip alike exactly when every member strips alike or is dropped on both sides |
| CaptureLaws.ComponentReads | src/capture/seal.rs:123-150 | The five members of a signed component and where their values come from |
| CaptureLaws.DataReads | src/capture/partial.rs:80-97 | The signed data are the component's own members with the attempt index over any of that name |
| Seal.SignedComponentsAgree | src/capture/seal.rs:123-169 | Two components are signed alike exactly when their wrapper fields agree and their data agree modulo stripping |
| Seal.EnvelopesAgree | src/capture/seal.rs:123-169 | Two traces have equal canonical envelopes exactly when every signed field agrees and the components agree modulo stripping; an absent profile differs from a null one |
| Seal.WireIsEnvelope | src/capture/batch.rs:109-122 | The wire trace minus its two signature fields is the signed envelope, and its components are already stripped |
| CaptureLaws.WireReads | src/capture/batch.rs:109-122 | Each member of the wire trace and the field it comes from |
| Seal.SigningKeepsBytes | src/capture/seal.rs:189-226 | Applying the signature changes none of the bytes that were signed |
| Batch.BuildBatch | src/capture/batch.rs:135-181 | The batch is refused exactly for an empty list or an unsigned trace, naming the first one, and is otherwise the envelope over all traces in order |
| CaptureLaws.EnvelopeReads | src/capture/batch.rs:135-181 | Each member of the batch and the value it comes from, and no other member |
| CaptureLaws.EventReads | src/capture/batch.rs:148-155 | The three members of a batch event |
| Clients.SignTrace | src/capture/client.rs:242-283 | Canonical bytes, signature, stamping: the signed trace or the first error |
| Clients.SealSignWrap | src/capture/client.rs:285-304 | Missing profile and level are filled in, never overwritten, then the trace is signed and wrapped; the batch builder never refuses |
| Clients.CaptureClient.PrepareForSeal | src/capture/client.rs:481-582 | The store moves by one event whatever the gate says; only a permitted seal is handed on, with the consent found and the configured provenance |
| CaptureLaws.GateReads | src/capture/client.rs:497-533 | The gate from its inputs: config alone without a key, closed when the directory cannot be read, and otherwise the kind of the newest row |
| CaptureLaws.BlockedReads | src/capture/client.rs:535-556 | What the caller is told of a sealed trace that is not emitted |
| Clients.CaptureClient.CaptureEvent | src/capture/client.rs:622-675 | One event through the Rust-engine client: new store, the batch handed to the engine if there is one, the tee counter, and what the caller is told, the engine having refused the batch included |
| Clients.CaptureClient.OrphanSweep | src/capture/client.rs:684-689 | The age limit is clamped to the signed range before the store is swept |
| Clients.PyEngineCapture.Prepare | src/capture/py_engine.rs:187-272 | The second implementation of the gate and stamping, from config alone |
| Clients.PyEngineCapture.ApplySignatureAndBatch | src/capture/py_engine.rs:286-294 | It always succeeds, with the batch of the signed trace |
| Clients.PyEngineCapture.CaptureEvent | src/ffi/pyo3.rs:866-930 | The host loop around it: canonical bytes, a 64-byte signature, batch, tee counter, the batch handed to the engine, and what the caller is told whatever the engine answers |
| ClientRuns.StepsAgree | src/capture/client.rs:481-582 | Without an attesting key both clients take every event to the same store and the same outcome, batch included |
| ClientRuns.PathsAgree | src/capture/py_engine.rs:187-294 | So over every run of events and sweeps, whatever the engine answers to each batch, the two clients have the same store, tell the same outcomes and hand over the same batches |
| ClientRuns.BatchNeverRefused | src/capture/batch.rs:135-160 | Neither client ever meets EmptyBatch or UnsignedTrace |
| ClientRuns.EmittedIsSigned | src/capture/client.rs:285-304 | An emitted batch holds one trace, signed over the bytes its own wire form canonicalises to, under the consent the gate found |
| CaptureLaws.EmissionReads | src/capture/client.rs:481-582 | The batch of an emission, member by member: the moment, the consent timestamp, the configured level, version and correlation, and one trace that keeps its own level and profile and takes the configured ones where it has none |
| CaptureLaws.AnswerReads | src/capture/client.rs:640-666 | A refusal of the engine reaches the caller as an error, the batch having been handed over all the same |
| CaptureLaws.TeeReads | src/capture/client.rs:590-605 | The tee counter moves on by one for every emission of a client that tees, wraps at 2^64, and never otherwise |
| CaptureLaws.ClampReads | src/capture/client.rs:684-689 | An age limit past the signed range is cut to 2^63 - 1 |
| ClientRuns.ClientIsStoreAndRows | src/capture/client.rs:481-557 | Over any run mixing attestations of any keys, events and sweeps, the client is the store of its events, and the gate reads the rows its own key has attested so far |
| ClientRuns.EmissionExact | src/capture/client.rs:481-582 | An event emits if and only if it seals a trace, the gate is open and the host signs; the batch is then exactly the pending segment, stamped, signed, and dated by the consent in force |
| ClientRuns.WithdrawalStopsEmission | src/capture/client.rs:481-557 | While the newest row on the dimension withdraws, nothing is emitted whatever the config; a sealing event is told so |
| ClientRuns.SealedEventsGone | src/capture/partial.rs:243-277 | Once a thought has been sealed, none of its earlier events is pending any more |
| ClientRuns.BlockedTraceNeverEmitted | src/capture/client.rs:481-557 | A trace blocked at its seal never appears in a later one: every later segment of the thought consists of later events |
| Egress.ApplyEgressFilter | src/config/egress.rs:267-314 | The in-place edit computes the recursive filter, on well-formed and malformed batches alike |
| Egress.RetainEvents | src/config/egress.rs:275-300 | The retain loop keeps exactly the events without a known severity below the gate, in order |
| Egress.ApplyComponentFilters | src/config/egress.rs:323-375 | The component edit computes the recursive trace filter |
| EgressLaws.GateReads | src/config/egress.rs:193-199 | An event is below the gate if and only if it is "info" under warning or critical, or "warning" under critical |
| EgressLaws.EventsPiecewise | src/config/egress.rs:275-312 | Event by event, in order, exactly those below the gate go |
| EgressLaws.BatchReads | src/config/egress.rs:267-314 | A batch is stamped with the level and keeps everything but its events |
| EgressLaws.EventReads | src/config/egress.rs:301-312 | So is every event, and only its trace is filtered |
| EgressLaws.TraceReads | src/config/egress.rs:323-333 | Of a trace only the list of components changes |
| EgressLaws.ComponentsPiecewise | src/config/egress.rs:335-345 | Component by component, in order, exactly those of type "llm_call" go, when detection events are left out |
| EgressLaws.ComponentReads | src/config/egress.rs:347-358 | Of a component only the data change |
| EgressLaws.DataReads | src/config/egress.rs:360-374 | Of the data exactly the five score fields go and exactly the two texts are nulled, each by its own flag |
| EgressLaws.FilterDataAt | src/config/egress.rs:340-375 | What the filter does to each data key on its own: present exactly if visible, nulled exactly if redacted |
| EgressLaws.FiltersCompose | src/config/egress.rs:267-375 | Filtering by f and then by g is filtering once: the level of g, the higher gate, the conjunction of the includes, the disjunction of the redactions; on every JSON value |
| EgressLaws.FilterIdempotent | src/config/egress.rs:267-375 | Filtering twice is filtering once |
| EgressLaws.StricterFromLooser | src/config/egress.rs:267-375 | A stricter output is computable from a looser one |
| EgressLaws.FilterReveals | src/config/egress.rs:267-375 | Two batches have the same output if and only if they differ only in levels, events below the gate, removed components, score keys and the contents of redacted fields |
| EgressLaws.RedactionIsDeletion | src/config/egress.rs:353-375 | After canonical stripping, a component redacted to null equals the component with the key deleted |
| Concentration.Gini | src/detector/axis_metrics.rs:90-107 | The nested accumulation computes the mean-difference quotient; it is undefined for an empty population or a sum that is not positive, and NaN as soon as one value is |
| Concentration.GiniOnNumbers | src/detector/axis_metrics.rs:90-107 | On a population of numbers the coefficient is the one the following rows are about |
| Concentration.GiniQuotient | src/detector/axis_metrics.rs:82-107 | The quotient is the sum of all pairwise distances over 2 n times the sum |
| Concentration.GiniRange | src/detector/axis_metrics.rs:90-107 | For non-negative values the coefficient lies in [0, (n-1)/n] |
| Concentration.GiniZero | src/detector/axis_metrics.rs:84-107 | It is zero if and only if all values are equal |
| Concentration.GiniMonopoly | src/detector/axis_metrics.rs:84-107 | Where one member holds everything the coefficient is (n-1)/n, so the range is attained |
| Concentration.GiniPermuted | src/detector/axis_metrics.rs:90-107 | It does not depend on the order of the population |
| Concentration.GiniScaled | src/detector/axis_metrics.rs:90-107 | It does not depend on the unit of measurement |
| Concentration.HhiAtLeast | src/detector/axis_metrics.rs:109-133 | The index is at least 1/K, and 1/K if and only if the K categories are equally used |
| Concentration.HhiAtMost | src/detector/axis_metrics.rs:109-133 | It is at most 1, and 1 if and only if one category holds everything |
| Concentration.HhiMerge | src/detector/axis_metrics.rs:118-133 | Folding any category into any other never lowers it |
| Concentration.BelowMedianAtMostHalf | src/detector/axis_metrics.rs:163-178 | The fraction strictly below the median is at most floor(n/2)/n |
| Concentration.AboveMedianAtMostHalf | src/detector/axis_metrics.rs:170-175 | Nor is more than half the population above the median |
| Concentration.BelowMedianExact | src/detector/axis_metrics.rs:163-178 | When no two values are equal, exactly floor(n/2) of them are below the median |
| Concentration.FractionBelowPermuted | src/detector/axis_metrics.rs:163-178 | It does not depend on the order of the population |
| Concentration.DedupCounts | src/detector/axis_metrics.rs:186-195 | On a sorted list, dropping equal neighbours leaves one of each value |
| Concentration.DiversityCountsDistinct | src/detector/axis_metrics.rs:186-195 | Sort and dedup count the distinct tuples, over the cohort size |
| AxisScore.ScoreRange | src/detector/axis_metrics.rs:252-361 | With a negative anchor s0, every numeric score is 0 or lies in [2*s0, s0] |
| AxisScore.NonzeroIffConcern | src/detector/axis_metrics.rs:262-300 | The verdict is withheld if and only if the axis is a zero-variance one and the metric a number at or below 0; otherwise the score is non-zero if and only if the metric crosses in its direction of concern, and NaN reads as in-band |
| AxisScore.VerdictReads | src/detector/axis_metrics.rs:252-300 | Withheld, in-band or negative, from the metric and the calibration alone: the threshold itself counts as of concern, in the direction the calibration names or its percentile implies, and at either bound of a corridor |
| AxisScore.AnchorAndSaturation | src/detector/axis_metrics.rs:302-361 | When a metric crosses: exactly when the score is the anchor, and exactly when it is twice the anchor, for each direction |
| AxisScore.CeilingReads | src/detector/axis_metrics.rs:337-342 | The ceiling is 1 for the five metrics that cannot exceed it and twice the threshold for the others |
| AxisScore.RampIsLinear | src/detector/axis_metrics.rs:325-361 | Between anchor and saturation the score is linear in the metric |
| AxisScore.HigherIsWorse | src/detector/axis_metrics.rs:325-361 | Upper-tail axes: a higher metric never scores better, and scores strictly worse below the ceiling |
| AxisScore.LowerIsWorse | src/detector/axis_metrics.rs:325-361 | Lower-tail axes: a lower metric never scores better, and scores strictly worse above 0 |
| AxisScore.HigherIsWorseAboveCorridor | src/detector/axis_metrics.rs:325-361 | Above the corridor a higher metric never scores better, and scores strictly worse between the threshold and the ceiling |
| AxisScore.LowerPoleIsFlat | src/detector/axis_metrics.rs:332-350 | At or below both the lower bound and the threshold, the score is the anchor however far the metric falls |
| AxisScore.LowerPoleNeverWorsens | src/detector/axis_metrics.rs:332-350 | Below the corridor a lower metric never scores worse: the ramp follows the upper pole |
| AxisScore.LowerPoleMonotoneIff | src/detector/axis_metrics.rs:302-350 | Falling further below the corridor never improves the score if and only if there is no head-room above the threshold, or the lower bound does not exceed the threshold, or a zero-variance axis withholds every verdict there |
| AxisScore.LowerPoleImproves | src/detector/axis_metrics.rs:332-350 | A concrete axis on which it does: falling from 0.5 to 0.25, both below the corridor, takes the score from -4/3 to the anchor -1 |
| AxisScore.GiniNeverSaturates | src/detector/axis_metrics.rs:325-361 | No population of non-negative values reaches the worst score of a Gini axis |
| AxisScore.WorstHhiIffMonopoly | src/detector/axis_metrics.rs:325-361 | The worst score of a model-concentration axis is reached exactly by a monopoly |
| AxisScore.ExclusionAboveHalfIsSilent | src/detector/axis_metrics.rs:277-300 | A participation-exclusion axis with its threshold above one half never fires |
| AxisScore.NaNReadsInBand | src/detector/axis_metrics.rs:90-107 | One NaN in the population makes a Gini axis read as in-band |
| Manifold.StandardizeAndRetain | src/detector/manifold.rs:89-140 | The loop returns the standard scores of the retained features in order, or nothing when one is missing, for every raw vector, imputation map and deviation, NaN included |
| Manifold.RetainedIff | src/detector/manifold.rs:89-140 | A vector is returned if and only if every retained feature has a value, its own or the imputed one, a mean, and a positive deviation |
| Manifold.ImputationStands | src/detector/manifold.rs:112-119 | A missing value stands for the imputed one and for nothing else |
| Manifold.MahalanobisSq | src/detector/manifold.rs:155-177 | The accumulation gives the sum of squares over the zipped length, or nothing if and only if an input is NaN or a variance is not positive |
| Manifold.ScoreMahalanobis | src/detector/manifold.rs:200-219 | Standardise, measure, take the root; unavailable exactly when one of the first two is |
| Manifold.UnstandardizeRecovers | src/detector/manifold.rs:89-140 | Un-standardising any retained vector and scoring it recovers the vector and its distance |
| Manifold.MaskedFeaturesIgnored | src/detector/manifold.rs:89-140 | Nothing about a masked-out feature is read |
| Manifold.UnitsDoNotMatter | src/detector/manifold.rs:89-140 | A joint affine change of unit of raw value, mean, deviation and imputation leaves the score unchanged |
| Manifold.DistanceIsNorm | src/detector/manifold.rs:155-177 | On numbers the program computes the inverse-variance norm of the difference |
| Manifold.ZeroIffAtCentroid | src/detector/manifold.rs:155-177 | The distance is zero if and only if the vector is the centroid |
| Manifold.CauchySchwarz | src/detector/manifold.rs:155-177 | The weighted Cauchy-Schwarz inequality |
| Manifold.Triangle | src/detector/manifold.rs:155-177 | The triangle inequality for the root of the distance |
| Manifold.NormSymmetric | src/detector/manifold.rs:155-177 | The distance is symmetric |
| Manifold.ScoresAreLipschitz | src/detector/manifold.rs:200-219 | The scores of two projections against one cohort differ, in either direction, by at most their distance from each other |
| Eviction.PlanEviction | src/retention/eviction.rs:42-109 | The planned cutoff is the later of the age cutoff and, at nine tenths of the saturated cap, the midpoint of the window; an audit range is planned if and only if the oldest entry is overdue, and it is non-empty and starts there |
| Eviction.PressedIff | src/retention/eviction.rs:63-66 | The disk presses if and only if ten times the bytes in use reach nine times the cap, in gigabytes of 10^9 bytes, cut to 2^64 - 1 |
| Eviction.Engine.DeleteTracesOlderThan | src/retention/eviction.rs:126-128 | The store primitive as assumed: it removes min(batch, eligible) rows, all older than the cutoff, and no other |
| Eviction.ExecutePlan | src/retention/eviction.rs:116-133 | With a positive batch size the drain loop leaves exactly the rows at or after the cutoff and reports how many it removed |
| Eviction.RoundsRemove | src/retention/eviction.rs:125-133 | Every round that does not end the loop removes a full batch of eligible rows |
| Eviction.DrainEndsIffPositive | src/retention/eviction.rs:125-133 | From any store, the number of rounds is bounded if and only if the batch size is positive |
| Eviction.EvictPerRetentionPolicy | src/retention/eviction.rs:167-174 | Planning from the store's own summary and draining gives the pass analysed below |
| Eviction.PassIsBothLimits | src/retention/eviction.rs:42-88 | A pass enforces both limits, each as it would alone: disk pressure tightens the age limit and never loosens it |
| Eviction.SurvivesIff | src/retention/eviction.rs:42-88 | A row survives if and only if it is young enough and, under pressure, not before the midpoint |
| Eviction.DiskPassHalves | src/retention/eviction.rs:63-88 | A disk-only pass keeps the newest rows, leaves at most half the window rounded up, and removes a row if and only if the window spans at least two nanoseconds |
| Eviction.CutoffIff | src/retention/eviction.rs:63-88 | There is a disk cutoff if and only if the disk presses and the table has a row, one row being enough; a lone row is kept |
| Eviction.HalvingBound | src/retention/eviction.rs:63-88 | Halving k times rounding up is dividing by 2^k rounding up, by both bounds |
| Eviction.PressureStalls | src/retention/eviction.rs:63-133 | Over any sequence of passes of the planner under unrelieved disk pressure the newest row is never lost, the window halves at every pass, and once 2^k has reached the window no further pass changes the store |

## Left out

- MahalanobisSq: overflow to infinity is not represented, because floats are exact reals or NaN.
- ReplaceSpans: a span that starts past the end of the text and ends inside it is excluded, because the program panics on it.
- Hhi: the `u64` sum of the counts is unbounded here.
- FractionBelowMedian: the population holds numbers only; how the sort places NaN is not modelled.
- PlanEviction: bytes and cap are compared over the reals, and dates outside the calendar's range are not modelled.
- ExecutePlan: requires a positive batch size, which every plan carries, because the loop does not end without one (`DrainEndsIffPositive`). The freed-bytes estimate is left out.
- RedactionIsDeletion: stated per component, which is where the canonical form strips.
- CaptureEvent: one event is one step. Concurrent callers of one client, between the store lock and the reading of the directory, are not interleaved; the summary inside a successful answer of `receive_and_persist` is not modelled.
- Failures inside the model library (a poisoned lock, a tensor error) and the choice of backend: the model is a total function. The two backends share the batching modelled here.
- The statistics counters of the scrubber.
- `coefficient_of_variation` and `aggregate_footprint`: a square root and a logarithm of one quotient; `pooled_rate`: a quotient.
- The manifold detector's wrapper, the sixteen-field projection, bundle loading and validation beyond the vector lengths.
- Regular expressions, tokenizer and model internals, truncation at 512 tokens.
- JSON byte serialisation, base64url, Ed25519, SHA-256 and RFC 3339 parsing: the canonicalizer, the encoder, the signer and the clock are functions.
- Writing of tee files, logging, environment variables, HTTP, Python bindings beyond the capture loop.
- Per-level retention ages, detection-event retention and audit archival execution, which the planner does not carry out either.
- The delete primitive and the storage summary live in another crate; their behaviour is assumed as `Eviction.Engine` states it.
