/**
 What the spans and the markers of a text mean, from the label strings, the token offsets and the
 bytes alone: which tokens form a span, which spans are used, what a marker reads as, and where the
 windows of a text are cut.
 */
module SpanLaws {
  import opened Wrappers
  import opened Sorting
  import opened Spans
  import opened Splice
  import opened Backend

  // ---- Labels ---------------------------------------------------------------------------------------

  lemma {:induction false} DashFound(prefix: string, tag: string)
    requires '-' !in prefix
    ensures DashAt(prefix) == |prefix|
    ensures DashAt(prefix + "-" + tag) == |prefix|
  {
    if prefix == "" {
      assert prefix + "-" + tag == "-" + tag;
    } else {
      DashFound(prefix[1..], tag);
      assert (prefix + "-" + tag)[1..] == prefix[1..] + "-" + tag;
      assert '-' in prefix[1..] ==> '-' in prefix;
    }
  }

  /** Position `i` carries a label at all: a non-empty offset and a known label other than "O". */
  predicate Labelled(labelIds: seq<nat>, offsets: seq<Offset>, labels: seq<string>, i: nat) {
    && i < |labelIds| && i < |offsets| && offsets[i].start != offsets[i].end
    && labelIds[i] < |labels| && labels[labelIds[i]] != "O"
  }

  /** A label `P-T` belongs to tag `T` and is inside exactly when `P` is "I"; a bare `T` is inside `T`. */
  lemma LabelReads(labelIds: seq<nat>, offsets: seq<Offset>, labels: seq<string>, i: nat, prefix: string, tag: string)
    requires i < |labelIds| && '-' !in prefix
    ensures TokenAt(i, labelIds, offsets, labels) == Break <==> !Labelled(labelIds, offsets, labels, i)
    ensures Labelled(labelIds, offsets, labels, i) && labels[labelIds[i]] == prefix + "-" + tag ==>
      TokenAt(i, labelIds, offsets, labels) == Tagged(offsets[i].start, offsets[i].end, prefix == "I", tag)
    ensures Labelled(labelIds, offsets, labels, i) && labels[labelIds[i]] == prefix ==>
      TokenAt(i, labelIds, offsets, labels) == Tagged(offsets[i].start, offsets[i].end, true, prefix)
  {
    DashFound(prefix, tag);
    assert (prefix + "-" + tag)[..|prefix|] == prefix;
    assert (prefix + "-" + tag)[|prefix| + 1..] == tag;
  }

  // ---- Runs -----------------------------------------------------------------------------------------

  /**
   The tokens `a` to `e` form a maximal run: all of one tag, all but the first inside, and neither
   the token before nor the one after could be of it.
   */
  ghost predicate MaximalRun(toks: seq<Token>, a: nat, e: nat) {
    && a <= e < |toks| && toks[a].Tagged? && toks[e].Tagged?
    && (forall i | a <= i <= e :: toks[i].Tagged? && toks[i].tag == toks[a].tag)
    && (forall i | a < i <= e :: toks[i].inside)
    && (toks[a].inside && a > 0 ==> toks[a - 1].Break? || toks[a - 1].tag != toks[a].tag)
    && (e + 1 < |toks| && toks[e + 1].Tagged? && toks[e + 1].tag == toks[a].tag ==> !toks[e + 1].inside)
  }

  lemma RunIsMaximal(toks: seq<Token>, a: nat)
    requires Opens(toks, a)
    ensures MaximalRun(toks, a, RunEnd(toks, a) - 1)
  {
    hide RunEnd;
    var e := RunEnd(toks, a);
    forall i | a < i < e ensures toks[i].inside { assert Continues(toks, i); }
  }

  lemma {:induction false} MaximalIsRun(toks: seq<Token>, a: nat, i: nat, e: nat)
    requires MaximalRun(toks, a, e) && a <= i <= e
    ensures RunEnd(toks, i) == e + 1
    decreases e - i
  {
    if i < e { MaximalIsRun(toks, a, i + 1, e); }
  }

  lemma {:induction false} SpanOpens(toks: seq<Token>, i: nat, span: Span) returns (a: nat)
    requires i <= |toks| && span in RunSpans(toks, i)
    ensures Opens(toks, a) && span == RunSpan(toks, a)
    decreases |toks| - i
  {
    if Opens(toks, i) && span == RunSpan(toks, i) {
      a := i;
    } else {
      a := SpanOpens(toks, i + 1, span);
    }
  }

  /** The spans listed are exactly those of the maximal runs. */
  lemma SpansAreMaximalRuns(toks: seq<Token>, span: Span)
    ensures span in RunSpans(toks, 0) <==>
      exists a: nat, e: nat :: MaximalRun(toks, a, e) && span == Span(toks[a].start, toks[e].end, toks[a].tag)
  {
    if span in RunSpans(toks, 0) {
      var a := SpanOpens(toks, 0, span);
      RunIsMaximal(toks, a);
    }
    if a: nat, e: nat :| MaximalRun(toks, a, e) && span == Span(toks[a].start, toks[e].end, toks[a].tag) {
      MaximalIsRun(toks, a, a, e);
      RunSpanListed(toks, 0, a);
    }
  }

  // ---- Which spans are used -------------------------------------------------------------------------

  /** `c` starts no later than `span` and ends after its start. */
  predicate Overlaps(c: Span, span: Span) {
    c.start <= span.start < c.end
  }

  /** A span is passed over only because it leaves the text or starts inside a chosen one. */
  lemma {:induction false} PassedOver(spans: seq<Span>, cursor: nat, len: nat, span: Span)
    requires Sorted(spans, StartLeq) && span in spans && span !in Accept(spans, cursor, len)
    ensures span.end > len || span.start < cursor ||
      exists c :: c in Accept(spans, cursor, len) && Overlaps(c, span)
  {
    if spans[0].start < cursor || spans[0].end > len {
      if span != spans[0] { PassedOver(spans[1..], cursor, len, span); }
    } else {
      var rest := Accept(spans[1..], spans[0].end, len);
      assert spans[0] in [spans[0]] + rest;
      assert span != spans[0];
      PassedOver(spans[1..], spans[0].end, len, span);
      assert StartLeq(spans[0], span);
      if c :| c in rest && Overlaps(c, span) {
        assert c in [spans[0]] + rest;
      } else if span.start < spans[0].end {
        assert Overlaps(spans[0], span);
      }
    }
  }

  lemma UsedOrExcused(text: string, spans: seq<Span>, span: Span)
    requires span in spans
    ensures span in Used(text, spans) || span.end > |text| ||
      exists c :: c in Used(text, spans) && Overlaps(c, span)
  {
    var sorted := StableSort(spans, StartLeq);
    SortPermutes(spans, StartLeq);
    assert span in multiset(sorted);
    SortSorts(spans, StartLeq);
    if span !in Used(text, spans) { PassedOver(sorted, 0, |text|, span); }
  }

  // ---- Markers --------------------------------------------------------------------------------------

  /** The number a string of decimal digits denotes. */
  function Reads(digits: string): nat
    requires forall i | 0 <= i < |digits| :: '0' <= digits[i] <= '9'
  {
    if digits == "" then 0
    else 10 * Reads(digits[..|digits| - 1]) + (digits[|digits| - 1] as int - '0' as int)
  }

  /** `Decimal` writes the number, in digits, without a leading zero. */
  lemma {:induction false} DecimalReads(n: nat)
    ensures forall i | 0 <= i < |Decimal(n)| :: '0' <= Decimal(n)[i] <= '9'
    ensures Reads(Decimal(n)) == n
    ensures |Decimal(n)| > 0 && (n > 0 ==> Decimal(n)[0] != '0')
  {
    if n < 10 {
      assert Decimal(n)[..0] == "";
    } else {
      DecimalReads(n / 10);
      assert Decimal(n)[..|Decimal(n)| - 1] == Decimal(n / 10);
    }
  }

  /** A marker is the tag and the number in square brackets, an underscore between them. */
  lemma MarkerReads(tag: string, n: nat) returns (digits: string)
    ensures Marker(tag, n) == ['['] + tag + ['_'] + digits + [']']
    ensures forall i | 0 <= i < |digits| :: '0' <= digits[i] <= '9'
    ensures Reads(digits) == n && |digits| > 0 && (n > 0 ==> digits[0] != '0')
  {
    hide Decimal, Reads;
    DecimalReads(n);
    digits := Decimal(n);
  }

  /** The spans up to `k` that share its tag. */
  function Sharing(spans: seq<Span>, k: nat, tag: string): set<nat>
    requires k <= |spans|
  {
    set j: nat | j < k && spans[j].tag == tag
  }

  lemma NextSharing(spans: seq<Span>, k: nat, tag: string)
    requires k < |spans|
    ensures Sharing(spans, k + 1, tag) == Sharing(spans, k, tag) + if spans[k].tag == tag then {k} else {}
    ensures k !in Sharing(spans, k, tag)
  {
  }

  lemma {:induction false} CountsSharing(spans: seq<Span>, k: nat, tag: string)
    requires k <= |spans|
    ensures CountTag(spans, k, tag) == |Sharing(spans, k, tag)|
  {
    hide Sharing;
    if k > 0 {
      CountsSharing(spans, k - 1, tag);
      NextSharing(spans, k - 1, tag);
    } else {
      NoneSharing(spans, tag);
    }
  }

  lemma NoneSharing(spans: seq<Span>, tag: string)
    ensures Sharing(spans, 0, tag) == {}
  {
  }

  /** A marker's number is how many spans of its tag there are up to and including its own. */
  lemma RankCounts(spans: seq<Span>, k: nat)
    requires k < |spans|
    ensures Rank(spans, k) == |Sharing(spans, k + 1, spans[k].tag)|
  {
    CountsSharing(spans, k + 1, spans[k].tag);
  }

  /** A cut inside the text is refused exactly at a continuation byte: one whose two high bits are 10. */
  lemma BoundaryReads(text: string, i: nat)
    requires i < |text| && text[i] as int < 256
    ensures IsBoundary(text, i) <==> i == 0 || text[i] as int / 64 != 2
    ensures IsBoundary(text, |text|)
  {
  }

  // ---- Windows --------------------------------------------------------------------------------------

  /** The first token of window `k`, and the last. */
  function FirstToken(window: nat, k: nat): nat {
    k * window
  }

  function LastToken(offsets: seq<Offset>, window: nat, k: nat): int {
    if FirstToken(window, k) + window <= |offsets| then FirstToken(window, k) + window - 1 else |offsets| - 1
  }

  /** `chunk` is the text of window `k`: from the start of its first token to the end of its last, if not empty. */
  predicate WindowOf(offsets: seq<Offset>, window: nat, chunk: Chunk, k: nat) {
    var t, e := FirstToken(window, k), LastToken(offsets, window, k);
    t < |offsets| && 0 <= e < |offsets| && chunk == Chunk(offsets[t].start, offsets[e].end) && chunk.from < chunk.to
  }

  lemma FirstTokens(window: nat, k: nat, later: nat)
    requires k < later
    ensures FirstToken(window, k + 1) == FirstToken(window, k) + window
    ensures FirstToken(window, k) + window <= FirstToken(window, later)
  {
    assert (later - k - 1) * window >= 0;
    assert later * window == k * window + window + (later - k - 1) * window;
  }

  lemma {:induction false} ChunksFromIff(
    text: string, offsets: seq<Offset>, window: nat, k: nat, t: nat, chunk: Chunk)
    requires window > 0 && Inside(offsets, text)
    requires t == if FirstToken(window, k) < |offsets| then FirstToken(window, k) else |offsets|
    ensures chunk in ChunksFrom(text, offsets, window, t) <==>
      exists j: nat :: k <= j && WindowOf(offsets, window, chunk, j)
    decreases |offsets| - t
  {
    hide Inside, FirstToken;
    if t < |offsets| {
      var next := if t + window < |offsets| then t + window else |offsets|;
      FirstTokens(window, k, k + 1);
      ChunksFromIff(text, offsets, window, k + 1, next, chunk);
      assert chunk in WindowChunk(offsets, t, next) <==> WindowOf(offsets, window, chunk, k);
    } else if j: nat :| k <= j && WindowOf(offsets, window, chunk, j) {
      if j > k { FirstTokens(window, k, j); }
    }
  }

  /** The chunks are exactly the non-empty windows: `window` tokens each from the first on, the last one shorter. */
  lemma ChunksAreWindows(ner: Ner, text: string, window: nat, chunk: Chunk)
    requires ner.Valid() && window > 0
    ensures chunk in Chunks(ner, text, window) <==> exists k: nat :: WindowOf(ner.tokenize(text), window, chunk, k)
  {
    ChunksFromIff(text, ner.tokenize(text), window, 0, 0, chunk);
  }

  /** Every token of a text lies inside one of its chunks, so that the model sees all of it. */
  lemma TokenInChunk(ner: Ner, text: string, window: nat, i: nat) returns (chunk: Chunk)
    requires ner.Valid() && window > 0 && i < |ner.tokenize(text)|
    requires ner.tokenize(text)[i].start < ner.tokenize(text)[i].end
    ensures chunk in Chunks(ner, text, window)
    ensures chunk.from <= ner.tokenize(text)[i].start && ner.tokenize(text)[i].end <= chunk.to
  {
    hide FirstToken, Chunks;
    var offsets, k := ner.tokenize(text), i / window;
    WindowStart(i, window);
    var t, e := FirstToken(window, k), LastToken(offsets, window, k);
    chunk := Chunk(offsets[t].start, offsets[e].end);
    WindowHolds(ner, text, t, i, e);
    assert WindowOf(offsets, window, chunk, k);
    ChunksAreWindows(ner, text, window, chunk);
  }

  lemma WindowStart(i: nat, window: nat)
    requires window > 0
    ensures FirstToken(window, i / window) <= i < FirstToken(window, i / window) + window
  {
    assert i == window * (i / window) + i % window;
  }

  lemma WindowHolds(ner: Ner, text: string, t: nat, i: nat, e: nat)
    requires ner.Valid() && t <= i <= e < |ner.tokenize(text)|
    ensures var offsets := ner.tokenize(text);
      offsets[t].start <= offsets[i].start && offsets[i].end <= offsets[e].end
  {
    var offsets := ner.tokenize(text);
    assert Inside(offsets, text) && Ascending(offsets, false);
  }

  // ---- What is covered ------------------------------------------------------------------------------

  /** Position `p` of the text lies in a maximal run of labelled tokens of one of its chunks. */
  ghost predicate InLabelledRun(ner: Ner, text: string, window: nat, chunk: Chunk, a: nat, e: nat, p: nat)
    requires ner.Valid() && window > 0 && CutAt(chunk, text)
  {
    var piece := text[chunk.from..chunk.to];
    var toks := Tokens(ner.labelOf(piece), ner.encode(piece), ner.labels);
    MaximalRun(toks, a, e) && chunk.from + toks[a].start <= p < chunk.from + toks[e].end
  }

  lemma {:induction false} SpanOfChunk(ner: Ner, text: string, chunks: seq<Chunk>, span: Span)
    requires forall k | 0 <= k < |chunks| :: CutAt(chunks[k], text)
    ensures span in SpansOfChunks(ner, text, chunks) <==>
      exists c :: 0 <= c < |chunks| && span in ChunkSpans(ner, text, chunks[c])
  {
    hide CutAt, ChunkSpans;
    if chunks != [] {
      SpanOfChunk(ner, text, chunks[1..], span);
      assert forall c | 0 < c < |chunks| :: chunks[c] == chunks[1..][c - 1];
    }
  }

  /** Exactly the bytes of the maximal labelled runs are taken out, no more and no less. */
  lemma CoveredExactly(ner: Ner, text: string, window: nat, p: nat)
    requires ner.Valid() && window > 0
    ensures forall chunk | chunk in Chunks(ner, text, window) :: CutAt(chunk, text)
    ensures Covered(TextSpans(ner, text, window), p) <==>
      exists chunk, a: nat, e: nat ::
        chunk in Chunks(ner, text, window) && InLabelledRun(ner, text, window, chunk, a, e, p)
  {
    hide Chunks, CutFrom, IsBoundary, Ner.Valid;
    var chunks, spans := Chunks(ner, text, window), TextSpans(ner, text, window);
    CutEach(chunks, text, 0);
    if Covered(spans, p) {
      var k :| 0 <= k < |spans| && spans[k].start <= p < spans[k].end;
      SpanOfChunk(ner, text, chunks, spans[k]);
      var c :| 0 <= c < |chunks| && spans[k] in ChunkSpans(ner, text, chunks[c]);
      var a, e := RunOfSpan(ner, text, chunks[c], spans[k]);
      assert InLabelledRun(ner, text, window, chunks[c], a, e, p);
    }
    if chunk, a: nat, e: nat :| chunk in chunks && InLabelledRun(ner, text, window, chunk, a, e, p) {
      var span := SpanOfRun(ner, text, chunk, a, e);
      var c :| 0 <= c < |chunks| && chunks[c] == chunk;
      SpanOfChunk(ner, text, chunks, span);
      SpanCovers(spans, span, p);
    }
  }

  lemma RunOfSpan(ner: Ner, text: string, chunk: Chunk, span: Span) returns (a: nat, e: nat)
    requires CutAt(chunk, text) && span in ChunkSpans(ner, text, chunk)
    ensures var piece := text[chunk.from..chunk.to];
      var toks := Tokens(ner.labelOf(piece), ner.encode(piece), ner.labels);
      && MaximalRun(toks, a, e)
      && span.start == chunk.from + toks[a].start && span.end == chunk.from + toks[e].end
  {
    hide RunSpans;
    var piece := text[chunk.from..chunk.to];
    var toks := Tokens(ner.labelOf(piece), ner.encode(piece), ner.labels);
    var k :| 0 <= k < |ChunkSpans(ner, text, chunk)| && ChunkSpans(ner, text, chunk)[k] == span;
    var found := Found(ner, piece)[k];
    SpansAreMaximalRuns(toks, found);
    a, e :| MaximalRun(toks, a, e) && found == Span(toks[a].start, toks[e].end, toks[a].tag);
  }

  lemma SpanOfRun(ner: Ner, text: string, chunk: Chunk, a: nat, e: nat) returns (span: Span)
    requires CutAt(chunk, text)
    requires var piece := text[chunk.from..chunk.to];
      MaximalRun(Tokens(ner.labelOf(piece), ner.encode(piece), ner.labels), a, e)
    ensures var piece := text[chunk.from..chunk.to];
      var toks := Tokens(ner.labelOf(piece), ner.encode(piece), ner.labels);
      && span in ChunkSpans(ner, text, chunk)
      && span.start == chunk.from + toks[a].start && span.end == chunk.from + toks[e].end
  {
    hide RunSpans;
    var piece := text[chunk.from..chunk.to];
    var toks := Tokens(ner.labelOf(piece), ner.encode(piece), ner.labels);
    var found := Span(toks[a].start, toks[e].end, toks[a].tag);
    SpansAreMaximalRuns(toks, found);
    var k :| 0 <= k < |Found(ner, piece)| && Found(ner, piece)[k] == found;
    span := ChunkSpans(ner, text, chunk)[k];
  }
}
