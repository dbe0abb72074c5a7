/**
 The batched NER backend (scrubber/ner.rs): texts are cut into token windows, the chunks of all
 texts are sorted by length and labelled in buckets, and the spans found are spliced back into
 the text each chunk came from.
 */
module Backend {
  import opened Sorting
  import opened Spans
  import opened Splice

  const MAX_TOKENS_PER_CHUNK: nat := 192
  const MAX_BATCH_CHUNKS: nat := 64

  /** A piece `[from, to)` of a text, as a string slice holds it: by position, not by copy. */
  datatype Chunk = Chunk(from: nat, to: nat)

  /** A chunk with the index of the text it belongs to. */
  datatype ChunkRef = ChunkRef(origin: nat, chunk: Chunk)

  /** Offsets stay inside the text and fall on character boundaries. */
  predicate Inside(offsets: seq<Offset>, text: string) {
    forall i | 0 <= i < |offsets| ::
      && offsets[i].start <= offsets[i].end <= |text|
      && IsBoundary(text, offsets[i].start) && IsBoundary(text, offsets[i].end)
  }

  /** No offset starts before an earlier one ends; empty offsets are those of special tokens. */
  predicate Ascending(offsets: seq<Offset>, special: bool) {
    forall i, j | 0 <= i < j < |offsets| ::
      (special && (offsets[i].start == offsets[i].end || offsets[j].start == offsets[j].end))
      || offsets[i].end <= offsets[j].start
  }

  /**
   Tokenizer and model.  `tokenize` gives the offsets of a text without special tokens, `encode`
   those of a chunk with them; `labelOf` is the label of every token of a chunk taken alone, and
   `forward` runs a whole padded bucket.
   */
  datatype Ner = Ner(
    tokenize: string -> seq<Offset>,
    encode: string -> seq<Offset>,
    labelOf: string -> seq<nat>,
    forward: seq<string> -> seq<seq<nat>>,
    labels: seq<string>)
  {
    /** A row of the padded result: the chunk's own labels, then anything. */
    predicate RowOf(row: seq<nat>, chunk: string) {
      |encode(chunk)| <= |row| && row[..|encode(chunk)|] == labelOf(chunk)
    }

    ghost predicate Valid() {
      && (forall text: string :: Inside(tokenize(text), text) && Ascending(tokenize(text), false))
      && (forall chunk: string :: Inside(encode(chunk), chunk) && Ascending(encode(chunk), true))
      && (forall batch: seq<string> :: |forward(batch)| == |batch|)
      && (forall batch: seq<string>, i | 0 <= i < |batch| :: RowOf(forward(batch)[i], batch[i]))
    }
  }

  // ---- Chunks -----------------------------------------------------------------------------

  /** The chunks of the token windows from token `t` on. */
  function ChunksFrom(text: string, offsets: seq<Offset>, window: nat, t: nat): seq<Chunk>
    requires window > 0 && t <= |offsets| && Inside(offsets, text)
    decreases |offsets| - t
  {
    if t == |offsets| then []
    else
      var next := if t + window < |offsets| then t + window else |offsets|;
      WindowChunk(offsets, t, next) + ChunksFrom(text, offsets, window, next)
  }

  /** The chunk of the token window `[t, next)`, unless it is empty. */
  function WindowChunk(offsets: seq<Offset>, t: nat, next: nat): seq<Chunk>
    requires t < next <= |offsets|
  {
    if offsets[next - 1].end > offsets[t].start then [Chunk(offsets[t].start, offsets[next - 1].end)] else []
  }

  predicate CutAt(chunk: Chunk, text: string) {
    && chunk.from < chunk.to <= |text|
    && IsBoundary(text, chunk.from) && IsBoundary(text, chunk.to)
  }

  /** The chunks are non-empty, cut at character boundaries, in order and apart. */
  predicate CutFrom(chunks: seq<Chunk>, text: string, from: nat) {
    && (forall k | 0 <= k < |chunks| :: from <= chunks[k].from && CutAt(chunks[k], text))
    && (forall j, k | 0 <= j < k < |chunks| :: chunks[j].to <= chunks[k].from)
  }

  lemma WindowCut(text: string, offsets: seq<Offset>, t: nat, next: nat)
    requires t < next <= |offsets| && Inside(offsets, text) && Ascending(offsets, false)
    ensures forall chunk | chunk in WindowChunk(offsets, t, next) :: CutAt(chunk, text)
    ensures forall i | next <= i < |offsets| :: offsets[next - 1].end <= offsets[i].start
  {
  }

  lemma {:induction false} ChunksCut(text: string, offsets: seq<Offset>, window: nat, t: nat, from: nat)
    requires window > 0 && t <= |offsets| && Inside(offsets, text) && Ascending(offsets, false)
    requires forall i | t <= i < |offsets| :: from <= offsets[i].start
    ensures CutFrom(ChunksFrom(text, offsets, window, t), text, from)
    decreases |offsets| - t
  {
    hide Inside, Ascending, CutAt, CutFrom;
    if t == |offsets| {
      CutNone(text, from);
    } else {
      var next := if t + window < |offsets| then t + window else |offsets|;
      WindowCut(text, offsets, t, next);
      var rest := ChunksFrom(text, offsets, window, next);
      if offsets[next - 1].end > offsets[t].start {
        var chunk := Chunk(offsets[t].start, offsets[next - 1].end);
        assert chunk in WindowChunk(offsets, t, next);
        ChunksCut(text, offsets, window, next, chunk.to);
        CutCons(chunk, rest, text, from);
      } else {
        ChunksCut(text, offsets, window, next, from);
        assert [] + rest == rest;
      }
    }
  }

  lemma CutNone(text: string, from: nat)
    ensures CutFrom([], text, from)
  {
  }

  lemma CutCons(chunk: Chunk, chunks: seq<Chunk>, text: string, from: nat)
    requires from <= chunk.from && CutAt(chunk, text) && CutFrom(chunks, text, chunk.to)
    ensures CutFrom([chunk] + chunks, text, from)
  {
  }

  /** The chunks of a text, cut window by window. */
  function Chunks(ner: Ner, text: string, window: nat): (chunks: seq<Chunk>)
    requires ner.Valid() && window > 0
    ensures CutFrom(chunks, text, 0)
  {
    ChunksCut(text, ner.tokenize(text), window, 0, 0);
    ChunksFrom(text, ner.tokenize(text), window, 0)
  }

  lemma TokenizedInside(ner: Ner, text: string)
    requires ner.Valid()
    ensures Inside(ner.tokenize(text), text)
  {
  }

  lemma ChunksFromStep(text: string, offsets: seq<Offset>, window: nat, t: nat, next: nat, chunks: seq<Chunk>)
    requires window > 0 && t < |offsets| && Inside(offsets, text)
    requires next == if t + window < |offsets| then t + window else |offsets|
    ensures chunks + ChunksFrom(text, offsets, window, t)
         == chunks + WindowChunk(offsets, t, next) + ChunksFrom(text, offsets, window, next)
  {
  }

  method PreChunk(ner: Ner, text: string, window: nat) returns (chunks: seq<Chunk>)
    requires ner.Valid() && window > 0
    ensures chunks == Chunks(ner, text, window)
  {
    hide CutFrom, Inside, Ascending, ChunksFrom;
    TokenizedInside(ner, text);
    var offsets := ner.tokenize(text);
    chunks := [];
    NoWindows(text, offsets, window);
    if |offsets| == 0 {
      return;
    }
    var t := 0;
    while t < |offsets|
      invariant t <= |offsets|
      invariant chunks + ChunksFrom(text, offsets, window, t) == ChunksFrom(text, offsets, window, 0)
      decreases |offsets| - t
    {
      var next := if t + window < |offsets| then t + window else |offsets|;
      ChunksFromStep(text, offsets, window, t, next, chunks);
      var from, to := offsets[t].start, offsets[next - 1].end;
      if to > from {
        chunks := chunks + [Chunk(from, to)];
      }
      t := next;
    }
  }

  lemma NoWindows(text: string, offsets: seq<Offset>, window: nat)
    requires window > 0 && Inside(offsets, text)
    ensures ChunksFrom(text, offsets, window, |offsets|) == []
  {
  }

  // ---- Spans ------------------------------------------------------------------------------

  function Shift(spans: seq<Span>, delta: nat): (shifted: seq<Span>)
    ensures |shifted| == |spans|
    ensures forall k | 0 <= k < |spans| ::
      shifted[k] == Span(spans[k].start + delta, spans[k].end + delta, spans[k].tag)
  {
    seq(|spans|, k requires 0 <= k < |spans| => Span(spans[k].start + delta, spans[k].end + delta, spans[k].tag))
  }

  /** The spans found in `chunk` labelled on its own. */
  function Found(ner: Ner, chunk: string): seq<Span> {
    Collapse(ner.labelOf(chunk), ner.encode(chunk), ner.labels)
  }

  /** The spans of one chunk, at their place in the text. */
  function ChunkSpans(ner: Ner, text: string, chunk: Chunk): seq<Span>
    requires CutAt(chunk, text)
  {
    Shift(Found(ner, text[chunk.from..chunk.to]), chunk.from)
  }

  function SpansOfChunks(ner: Ner, text: string, chunks: seq<Chunk>): seq<Span>
    requires forall k | 0 <= k < |chunks| :: CutAt(chunks[k], text)
  {
    if chunks == [] then [] else ChunkSpans(ner, text, chunks[0]) + SpansOfChunks(ner, text, chunks[1..])
  }

  /** The spans of a text: its chunks labelled one at a time, in text order. */
  function TextSpans(ner: Ner, text: string, window: nat): seq<Span>
    requires ner.Valid() && window > 0
  {
    SpansOfChunks(ner, text, Chunks(ner, text, window))
  }

  lemma FoundStrict(ner: Ner, chunk: string)
    requires ner.Valid()
    ensures InOrder(Tokens(ner.labelOf(chunk), ner.encode(chunk), ner.labels), |chunk|)
    ensures Strict(Found(ner, chunk), 0, |chunk|) && Aligned(chunk, Found(ner, chunk))
  {
    var offsets := ner.encode(chunk);
    assert Inside(offsets, chunk) && Ascending(offsets, true);
    var toks := Tokens(ner.labelOf(chunk), offsets, ner.labels);
    RunSpansStrict(toks, 0, 0, |chunk|);
    var spans := RunSpans(toks, 0);
    forall k | 0 <= k < |spans| ensures IsBoundary(chunk, spans[k].start) && IsBoundary(chunk, spans[k].end) {
      var a, e := SpanEnds(toks, 0, k);
      assert toks[a] == TokenAt(a, ner.labelOf(chunk), offsets, ner.labels);
      assert toks[e] == TokenAt(e, ner.labelOf(chunk), offsets, ner.labels);
    }
  }

  lemma BoundaryOfSlice(text: string, chunk: Chunk, i: nat)
    requires CutAt(chunk, text) && i <= chunk.to - chunk.from
    requires IsBoundary(text[chunk.from..chunk.to], i)
    ensures IsBoundary(text, chunk.from + i)
  {
  }

  lemma ChunkSpansStrict(ner: Ner, text: string, chunk: Chunk)
    requires ner.Valid() && CutAt(chunk, text)
    ensures Strict(ChunkSpans(ner, text, chunk), chunk.from, chunk.to)
    ensures Aligned(text, ChunkSpans(ner, text, chunk))
  {
    hide IsBoundary, Found;
    var piece := text[chunk.from..chunk.to];
    FoundStrict(ner, piece);
    var found, spans := Found(ner, piece), ChunkSpans(ner, text, chunk);
    forall k | 0 <= k < |spans| ensures IsBoundary(text, spans[k].start) && IsBoundary(text, spans[k].end) {
      BoundaryOfSlice(text, chunk, found[k].start);
      BoundaryOfSlice(text, chunk, found[k].end);
    }
  }

  lemma {:induction false} SpansOfChunksStrict(ner: Ner, text: string, chunks: seq<Chunk>, from: nat)
    requires ner.Valid() && CutFrom(chunks, text, from)
    ensures Strict(SpansOfChunks(ner, text, chunks), from, |text|)
    ensures Aligned(text, SpansOfChunks(ner, text, chunks))
  {
    if chunks != [] {
      ChunkSpansStrict(ner, text, chunks[0]);
      SpansOfChunksStrict(ner, text, chunks[1..], chunks[0].to);
    }
  }

  lemma TextSpansStrict(ner: Ner, text: string, window: nat)
    requires ner.Valid() && window > 0
    ensures Strict(TextSpans(ner, text, window), 0, |text|)
    ensures Aligned(text, TextSpans(ner, text, window))
    ensures Laid(TextSpans(ner, text, window), 0, |text|)
  {
    SpansOfChunksStrict(ner, text, Chunks(ner, text, window), 0);
  }

  /** The scrubbed form of one text: each of its chunks labelled alone, in text order. */
  function ScrubText(ner: Ner, text: string, window: nat): string
    requires ner.Valid() && window > 0
  {
    TextSpansStrict(ner, text, window);
    Show(Redact(text, TextSpans(ner, text, window)))
  }

  // ---- Nothing labelled survives ----------------------------------------------------------

  /**
   What a scrubbed text is made of: the bytes outside its spans, once and in order, and one marker a
   span, numbered within its tag and standing where the span stood.
   */
  lemma ScrubbedExact(ner: Ner, text: string, window: nat)
    requires ner.Valid() && window > 0
    ensures Laid(TextSpans(ner, text, window), 0, |text|)
    ensures var spans := TextSpans(ner, text, window);
      var redacted := Redact(text, spans);
      && ScrubText(ner, text, window) == Show(redacted)
      && CopiedBytes(redacted) == Outside(text, spans, 0, |text|)
      && |Marks(redacted)| == |spans|
      && forall k | 0 <= k < |spans| ::
        Marks(redacted)[k] == (spans[k].tag, Rank(spans, k))
        && CopiedBytes(Before(redacted, k)) == Outside(text, spans, 0, spans[k].start)
  {
    hide TextSpans, Redact, Outside, Before, Marks, CopiedBytes, Rank, Strict;
    TextSpansStrict(ner, text, window);
    RedactionExact(text, TextSpans(ner, text, window));
  }

  lemma TokenFound(ner: Ner, piece: string, t: nat) returns (k: nat)
    requires ner.Valid()
    requires var toks := Tokens(ner.labelOf(piece), ner.encode(piece), ner.labels);
      t < |toks| && toks[t].Tagged?
    ensures var toks := Tokens(ner.labelOf(piece), ner.encode(piece), ner.labels);
      && k < |Found(ner, piece)|
      && Found(ner, piece)[k].start <= toks[t].start && toks[t].end <= Found(ner, piece)[k].end
  {
    hide InOrder, Strict, RunSpans, Inside, Ascending;
    var toks := Tokens(ner.labelOf(piece), ner.encode(piece), ner.labels);
    FoundStrict(ner, piece);
    var span := TokenInSpan(toks, t, |piece|);
    k :| 0 <= k < |RunSpans(toks, 0)| && RunSpans(toks, 0)[k] == span;
  }

  lemma SpanCovers(spans: seq<Span>, span: Span, p: nat)
    requires span in spans && span.start <= p < span.end
    ensures Covered(spans, p)
  {
  }

  /** The bytes of every labelled token of every chunk are covered by a span of the text. */
  lemma LabelledTokenCovered(ner: Ner, text: string, window: nat, c: nat, t: nat, p: nat)
    requires ner.Valid() && window > 0
    requires c < |Chunks(ner, text, window)|
    requires var chunk := Chunks(ner, text, window)[c];
      var piece := text[chunk.from..chunk.to];
      var toks := Tokens(ner.labelOf(piece), ner.encode(piece), ner.labels);
      t < |toks| && toks[t].Tagged? && chunk.from + toks[t].start <= p < chunk.from + toks[t].end
    ensures Covered(TextSpans(ner, text, window), p)
  {
    hide IsBoundary, Found, Inside, Ascending, Covered, SpansOfChunks, ChunksFrom;
    var chunks := Chunks(ner, text, window);
    var chunk := chunks[c];
    var k := TokenFound(ner, text[chunk.from..chunk.to], t);
    ChunkSpanListed(ner, text, chunks, c, k);
    SpanCovers(TextSpans(ner, text, window), ChunkSpans(ner, text, chunk)[k], p);
  }

  lemma {:induction false} ChunkSpanListed(ner: Ner, text: string, chunks: seq<Chunk>, c: nat, k: nat)
    requires forall k | 0 <= k < |chunks| :: CutAt(chunks[k], text)
    requires c < |chunks| && k < |ChunkSpans(ner, text, chunks[c])|
    ensures ChunkSpans(ner, text, chunks[c])[k] in SpansOfChunks(ner, text, chunks)
  {
    hide CutAt, ChunkSpans;
    if c > 0 { ChunkSpanListed(ner, text, chunks[1..], c - 1, k); }
  }

  // ---- The batch --------------------------------------------------------------------------

  predicate ValidRef(texts: seq<string>, r: ChunkRef) {
    r.origin < |texts| && CutAt(r.chunk, texts[r.origin])
  }

  predicate ValidRefs(texts: seq<string>, refs: seq<ChunkRef>) {
    forall k | 0 <= k < |refs| :: ValidRef(texts, refs[k])
  }

  /** What the chunk `r` contributes to text `i`. */
  function Share(ner: Ner, texts: seq<string>, r: ChunkRef, i: nat): seq<Span>
    requires ValidRef(texts, r)
  {
    if r.origin == i then ChunkSpans(ner, texts[i], r.chunk) else []
  }

  /** The spans text `i` receives when the chunks are processed in the order of `refs`. */
  function Gathered(ner: Ner, texts: seq<string>, refs: seq<ChunkRef>, i: nat): seq<Span>
    requires ValidRefs(texts, refs)
  {
    if refs == [] then []
    else Gathered(ner, texts, refs[..|refs| - 1], i) + Share(ner, texts, refs[|refs| - 1], i)
  }

  /** All chunks of the texts from `i` on, in text order. */
  function AllRefs(ner: Ner, texts: seq<string>, window: nat, n: nat): (refs: seq<ChunkRef>)
    requires ner.Valid() && window > 0 && n <= |texts|
    ensures ValidRefs(texts, refs)
    ensures forall r | r in refs :: r.origin < n
  {
    if n == 0 then []
    else AllRefs(ner, texts, window, n - 1) + RefsOf(ner, texts, window, n - 1)
  }

  function RefsOf(ner: Ner, texts: seq<string>, window: nat, i: nat): (refs: seq<ChunkRef>)
    requires ner.Valid() && window > 0 && i < |texts|
    ensures ValidRefs(texts, refs)
    ensures |refs| == |Chunks(ner, texts[i], window)|
    ensures forall k | 0 <= k < |refs| :: refs[k] == ChunkRef(i, Chunks(ner, texts[i], window)[k])
  {
    var chunks := Chunks(ner, texts[i], window);
    seq(|chunks|, k requires 0 <= k < |chunks| => ChunkRef(i, chunks[k]))
  }

  lemma {:induction false} GatheredAppend(ner: Ner, texts: seq<string>, a: seq<ChunkRef>, b: seq<ChunkRef>, i: nat)
    requires ValidRefs(texts, a) && ValidRefs(texts, b)
    ensures Gathered(ner, texts, a + b, i) == Gathered(ner, texts, a, i) + Gathered(ner, texts, b, i)
  {
    hide ValidRef, Share;
    if b == [] {
      assert a + b == a;
    } else {
      var last := |b| - 1;
      assert (a + b)[..|a + b| - 1] == a + b[..last];
      GatheredAppend(ner, texts, a, b[..last], i);
    }
  }

  lemma GatheredMiddle(ner: Ner, texts: seq<string>, front: seq<ChunkRef>, x: ChunkRef, back: seq<ChunkRef>, i: nat)
    requires ValidRefs(texts, front) && ValidRef(texts, x) && ValidRefs(texts, back)
    ensures multiset(Gathered(ner, texts, front + [x] + back, i))
         == multiset(Gathered(ner, texts, front + back, i)) + multiset(Share(ner, texts, x, i))
  {
    hide ValidRef, Share;
    assert [x][..0] == [];
    assert Gathered(ner, texts, [x], i) == [] + Share(ner, texts, x, i);
    GatheredAppend(ner, texts, front, back, i);
    GatheredAppend(ner, texts, front, [x], i);
    GatheredAppend(ner, texts, front + [x], back, i);
  }

  /** The order in which chunks are processed does not change the multiset of spans a text receives. */
  lemma {:induction false} GatheredPermuted(ner: Ner, texts: seq<string>, a: seq<ChunkRef>, b: seq<ChunkRef>, i: nat)
    requires multiset(a) == multiset(b)
    requires ValidRefs(texts, a) && ValidRefs(texts, b)
    ensures multiset(Gathered(ner, texts, a, i)) == multiset(Gathered(ner, texts, b, i))
  {
    hide ValidRef, ValidRefs, Share, Gathered;
    if a == [] {
      assert |multiset(b)| == 0;
      assert b == [];
    } else {
      var front, back := FindFirstRef(texts, a, b);
      GatheredPermuted(ner, texts, a[1..], front + back, i);
      GatheredMiddle(ner, texts, [], a[0], a[1..], i);
      GatheredMiddle(ner, texts, front, a[0], back, i);
      assert [] + a[1..] == a[1..] && [] + [a[0]] + a[1..] == a;
    }
  }

  lemma FindFirstRef(texts: seq<string>, a: seq<ChunkRef>, b: seq<ChunkRef>)
    returns (front: seq<ChunkRef>, back: seq<ChunkRef>)
    requires a != [] && multiset(a) == multiset(b) && ValidRefs(texts, a) && ValidRefs(texts, b)
    ensures b == front + [a[0]] + back && multiset(a[1..]) == multiset(front + back)
    ensures ValidRefs(texts, []) && ValidRef(texts, a[0]) && ValidRefs(texts, a[1..])
    ensures ValidRefs(texts, front) && ValidRefs(texts, back) && ValidRefs(texts, front + back)
  {
    hide ValidRef;
    front, back := FindFirst(a, b);
    assert forall k | 0 <= k < |front| :: front[k] == b[k];
    assert forall k | 0 <= k < |back| :: back[k] == b[|front| + 1 + k];
  }

  lemma {:induction false} RefsOfGathered(ner: Ner, texts: seq<string>, i: nat, chunks: seq<Chunk>, refs: seq<ChunkRef>)
    requires i < |texts| && |refs| == |chunks| && ValidRefs(texts, refs)
    requires forall k | 0 <= k < |refs| :: refs[k] == ChunkRef(i, chunks[k])
    requires forall k | 0 <= k < |chunks| :: CutAt(chunks[k], texts[i])
    ensures Gathered(ner, texts, refs, i) == SpansOfChunks(ner, texts[i], chunks)
  {
    hide CutAt, ChunkSpans;
    if chunks != [] {
      assert refs == [refs[0]] + refs[1..];
      GatheredAppend(ner, texts, [refs[0]], refs[1..], i);
      RefsOfGathered(ner, texts, i, chunks[1..], refs[1..]);
      assert Gathered(ner, texts, [refs[0]], i) == [] + Share(ner, texts, refs[0], i);
    }
  }

  lemma {:induction false} OthersGatherNothing(ner: Ner, texts: seq<string>, refs: seq<ChunkRef>, i: nat)
    requires ValidRefs(texts, refs) && forall k | 0 <= k < |refs| :: refs[k].origin != i
    ensures Gathered(ner, texts, refs, i) == []
  {
    hide ValidRef;
    if refs != [] { OthersGatherNothing(ner, texts, refs[..|refs| - 1], i); }
  }

  lemma OwnGathered(ner: Ner, texts: seq<string>, window: nat, i: nat)
    requires ner.Valid() && window > 0 && i < |texts|
    ensures Gathered(ner, texts, RefsOf(ner, texts, window, i), i) == TextSpans(ner, texts[i], window)
  {
    hide Gathered, Inside, Ascending, CutFrom, CutAt, SpansOfChunks, ChunksFrom, ValidRef, Ner.Valid;
    var chunks := Chunks(ner, texts[i], window);
    CutEach(chunks, texts[i], 0);
    RefsOfGathered(ner, texts, i, chunks, RefsOf(ner, texts, window, i));
  }

  /** In text order, text `i` receives exactly its own spans. */
  lemma {:induction false} AllRefsGathered(ner: Ner, texts: seq<string>, window: nat, n: nat, i: nat)
    requires ner.Valid() && window > 0 && i < n <= |texts|
    ensures Gathered(ner, texts, AllRefs(ner, texts, window, n), i) == TextSpans(ner, texts[i], window)
  {
    hide Gathered, Inside, Ascending, CutFrom, CutAt, ValidRef, TextSpans, Chunks, Ner.Valid;
    var before, own := AllRefs(ner, texts, window, n - 1), RefsOf(ner, texts, window, n - 1);
    GatheredAppend(ner, texts, before, own, i);
    if i == n - 1 {
      OthersGatherNothing(ner, texts, before, i);
      OwnGathered(ner, texts, window, i);
    } else {
      AllRefsGathered(ner, texts, window, n - 1, i);
      OthersGatherNothing(ner, texts, own, i);
    }
  }

  lemma CutEach(chunks: seq<Chunk>, text: string, from: nat)
    requires CutFrom(chunks, text, from)
    ensures forall k | 0 <= k < |chunks| :: CutAt(chunks[k], text)
  {
  }

  lemma StrictIsSorted(spans: seq<Span>, len: nat)
    requires Strict(spans, 0, len)
    ensures TotalPreorder(StartLeq)
    ensures Sorted(spans, StartLeq) && Separates(StartLeq, spans)
    ensures Upright(spans) && Laid(spans, 0, len)
  {
  }

  /** Sorting by start undoes any rearrangement of the spans of a text. */
  lemma SpansRecovered(text: string, spans: seq<Span>, shuffled: seq<Span>)
    requires Strict(spans, 0, |text|) && multiset(shuffled) == multiset(spans)
    ensures Upright(shuffled)
    ensures Used(text, shuffled) == spans
  {
    hide Strict;
    StrictIsSorted(spans, |text|);
    SortPermutes(shuffled, StartLeq);
    SortSorts(shuffled, StartLeq);
    SortedUnique(spans, StableSort(shuffled, StartLeq), StartLeq);
    AcceptAll(spans, 0, |text|);
    forall k | 0 <= k < |shuffled| ensures shuffled[k].start <= shuffled[k].end {
      assert shuffled[k] in multiset(spans);
    }
  }

  /** Whatever the order of the chunks of all texts, text `i` ends up scrubbed as if it were alone. */
  lemma OrderIsInvisible(ner: Ner, texts: seq<string>, window: nat, refs: seq<ChunkRef>, i: nat)
    requires ner.Valid() && window > 0 && i < |texts| && ValidRefs(texts, refs)
    requires multiset(refs) == multiset(AllRefs(ner, texts, window, |texts|))
    ensures Upright(Gathered(ner, texts, refs, i))
    ensures Used(texts[i], Gathered(ner, texts, refs, i)) == TextSpans(ner, texts[i], window)
  {
    hide Gathered, Strict, Inside, Ascending;
    TextSpansStrict(ner, texts[i], window);
    AllRefsGathered(ner, texts, window, |texts|, i);
    GatheredPermuted(ner, texts, refs, AllRefs(ner, texts, window, |texts|), i);
    SpansRecovered(texts[i], TextSpans(ner, texts[i], window), Gathered(ner, texts, refs, i));
  }

  // ---- scrub_batch of the backend ---------------------------------------------------------

  predicate ShorterOrEqual(a: ChunkRef, b: ChunkRef)
  {
    a.chunk.to - a.chunk.from <= b.chunk.to - b.chunk.from
  }

  function PieceOf(texts: seq<string>, r: ChunkRef): string
    requires ValidRef(texts, r)
  {
    texts[r.origin][r.chunk.from..r.chunk.to]
  }

  lemma RowFound(ner: Ner, pieces: seq<string>, k: nat)
    requires ner.Valid() && k < |pieces|
    ensures |ner.forward(pieces)| == |pieces|
    ensures Collapse(ner.forward(pieces)[k], ner.encode(pieces[k]), ner.labels) == Found(ner, pieces[k])
  {
    assert ner.RowOf(ner.forward(pieces)[k], pieces[k]);
    PaddingIgnored(ner.forward(pieces)[k], ner.encode(pieces[k]), ner.labels);
  }

  lemma {:induction false} NothingEncoded(ner: Ner, texts: seq<string>, refs: seq<ChunkRef>, i: nat)
    requires ner.Valid() && ValidRefs(texts, refs)
    requires forall k | 0 <= k < |refs| :: ner.encode(PieceOf(texts, refs[k])) == []
    ensures Gathered(ner, texts, refs, i) == []
  {
    if refs != [] {
      var last := refs[|refs| - 1];
      var piece := PieceOf(texts, last);
      assert ner.RowOf(ner.forward([piece])[0], [piece][0]);
      assert Found(ner, piece) == [];
      NothingEncoded(ner, texts, refs[..|refs| - 1], i);
    }
  }

  /** Label one bucket and add each chunk's spans to the text it came from. */
  method RunBatch(ner: Ner, texts: seq<string>, batch: seq<ChunkRef>, perText: array<seq<Span>>)
    requires ner.Valid() && ValidRefs(texts, batch) && perText.Length == |texts|
    modifies perText
    ensures forall i | 0 <= i < |texts| :: perText[i] == old(perText[i]) + Gathered(ner, texts, batch, i)
  {
    hide ValidRef, CutAt, Inside, Ascending, Share, Gathered;
    if batch == [] {
      NothingGathered(ner, texts);
      return;
    }
    var pieces := seq(|batch|, k requires 0 <= k < |batch| => PieceOf(texts, batch[k]));
    if forall k | 0 <= k < |pieces| :: ner.encode(pieces[k]) == [] {
      assert forall k | 0 <= k < |batch| :: pieces[k] == PieceOf(texts, batch[k]);
      forall i | 0 <= i < |texts| ensures Gathered(ner, texts, batch, i) == [] {
        NothingEncoded(ner, texts, batch, i);
      }
      return;
    }
    var rows := ner.forward(pieces);
    NothingGathered(ner, texts);
    assert batch[..0] == [];
    for k := 0 to |batch|
      invariant forall i | 0 <= i < |texts| :: perText[i] == old(perText[i]) + Gathered(ner, texts, batch[..k], i)
    {
      var r := batch[k];
      RowFound(ner, pieces, k);
      RefOrigin(texts, r);
      var found := CollapseBio(rows[k], ner.encode(pieces[k]), ner.labels);
      forall i | 0 <= i < |texts|
        ensures Gathered(ner, texts, batch[..k + 1], i) == Gathered(ner, texts, batch[..k], i) + Share(ner, texts, r, i)
      {
        GatheredSnoc(ner, texts, batch, k, i);
      }
      forall i | 0 <= i < |texts|
        ensures Share(ner, texts, r, i) == if i == r.origin then Shift(found, r.chunk.from) else []
      {
        ShareFound(ner, texts, r, i);
      }
      perText[r.origin] := perText[r.origin] + Shift(found, r.chunk.from);
    }
    assert batch[..|batch|] == batch;
  }

  lemma RefOrigin(texts: seq<string>, r: ChunkRef)
    requires ValidRef(texts, r)
    ensures r.origin < |texts|
  {
  }

  lemma ShareFound(ner: Ner, texts: seq<string>, r: ChunkRef, i: nat)
    requires ValidRef(texts, r)
    ensures Share(ner, texts, r, i) == if i == r.origin then Shift(Found(ner, PieceOf(texts, r)), r.chunk.from) else []
  {
  }

  lemma NothingGathered(ner: Ner, texts: seq<string>)
    ensures forall i: nat :: Gathered(ner, texts, [], i) == []
  {
  }

  lemma GatheredSnoc(ner: Ner, texts: seq<string>, refs: seq<ChunkRef>, k: nat, i: nat)
    requires k < |refs| && ValidRefs(texts, refs)
    ensures Gathered(ner, texts, refs[..k + 1], i) == Gathered(ner, texts, refs[..k], i) + Share(ner, texts, refs[k], i)
  {
    assert refs[..k + 1][..k] == refs[..k];
  }

  method CollectChunks(ner: Ner, texts: seq<string>, window: nat) returns (flat: seq<ChunkRef>)
    requires ner.Valid() && window > 0
    ensures flat == AllRefs(ner, texts, window, |texts|)
  {
    hide ValidRef, CutAt, Inside, Ascending, ChunksFrom;
    flat := [];
    for i := 0 to |texts|
      invariant flat == AllRefs(ner, texts, window, i)
    {
      var chunks := PreChunk(ner, texts[i], window);
      var refs := seq(|chunks|, k requires 0 <= k < |chunks| => ChunkRef(i, chunks[k]));
      assert refs == RefsOf(ner, texts, window, i);
      flat := flat + refs;
    }
  }

  /** Run the chunks in buckets, in the order given. */
  method LabelChunks(ner: Ner, texts: seq<string>, refs: seq<ChunkRef>, bucket: nat) returns (perText: array<seq<Span>>)
    requires ner.Valid() && ValidRefs(texts, refs) && bucket > 0
    ensures fresh(perText) && perText.Length == |texts|
    ensures forall i | 0 <= i < |texts| :: perText[i] == Gathered(ner, texts, refs, i)
  {
    hide ValidRef, Inside, Ascending, Gathered;
    perText := new seq<Span>[|texts|](_ => []);
    var at := 0;
    NothingGathered(ner, texts);
    assert refs[..0] == [];
    while at < |refs|
      invariant at <= |refs|
      invariant forall i | 0 <= i < |texts| :: perText[i] == Gathered(ner, texts, refs[..at], i)
      decreases |refs| - at
    {
      var next := if at + bucket < |refs| then at + bucket else |refs|;
      var batch := refs[at..next];
      RunBatch(ner, texts, batch, perText);
      assert refs[..next] == refs[..at] + batch;
      forall i | 0 <= i < |texts| ensures perText[i] == Gathered(ner, texts, refs[..next], i) {
        GatheredAppend(ner, texts, refs[..at], batch, i);
      }
      at := next;
    }
    assert refs[..|refs|] == refs;
  }

  /**
   Scrub many texts at once.  Chunks of all texts are sorted by length and run in buckets of at
   most `bucket`; each result is what scrubbing that text alone gives.
   */
  method ScrubBatch(ner: Ner, texts: seq<string>, window: nat, bucket: nat) returns (out: seq<string>)
    requires ner.Valid() && window > 0 && bucket > 0
    ensures |out| == |texts|
    ensures forall i | 0 <= i < |texts| :: out[i] == ScrubText(ner, texts[i], window)
  {
    hide ValidRef, Inside, Ascending, Gathered, TextSpans, Used, Upright, Sliceable, Laid, Redact;
    if texts == [] {
      return [];
    }
    var flat := CollectChunks(ner, texts, window);
    var sorted := StableSort(flat, ShorterOrEqual);
    SortPermutes(flat, ShorterOrEqual);
    SortedValid(texts, flat, sorted);
    var perText := LabelChunks(ner, texts, sorted, bucket);
    out := [];
    for i := 0 to |texts|
      invariant forall j | 0 <= j < |texts| :: perText[j] == Gathered(ner, texts, sorted, j)
      invariant |out| == i
      invariant forall j | 0 <= j < i :: out[j] == ScrubText(ner, texts[j], window)
    {
      OrderIsInvisible(ner, texts, window, sorted, i);
      UprightIsSliceable(perText[i], |texts[i]|);
      var scrubbed := ReplaceSpans(texts[i], perText[i]);
      out := out + [scrubbed];
    }
  }

  lemma SortedValid(texts: seq<string>, refs: seq<ChunkRef>, sorted: seq<ChunkRef>)
    requires ValidRefs(texts, refs) && multiset(sorted) == multiset(refs)
    ensures ValidRefs(texts, sorted)
  {
    forall k | 0 <= k < |sorted| ensures ValidRef(texts, sorted[k]) {
      assert sorted[k] in multiset(refs);
    }
  }
}
