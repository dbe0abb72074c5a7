/**
 From token labels to redacted text: BIO labels are collapsed into entity spans, and spans are
 replaced by numbered placeholders (scrubber/ner.rs).

 A Rust string is its UTF-8 bytes, one `char` a byte, so that offsets and lengths are byte counts.
 */
module Spans {
  import opened Wrappers

  datatype Offset = Offset(start: nat, end: nat)

  datatype Span = Span(start: nat, end: nat, tag: string)

  // ---- Token view -------------------------------------------------------------------------

  /** What one position of the label list means: it breaks a span, or it belongs to an entity. */
  datatype Token =
    | Break
    | Tagged(start: nat, end: nat, inside: bool, tag: string)

  /** Index of the first '-', or the length when there is none. */
  function DashAt(name: string): (d: nat)
    ensures d <= |name|
    ensures '-' !in name[..d] && (d < |name| ==> name[d] == '-')
  {
    if name == "" || name[0] == '-' then 0 else 1 + DashAt(name[1..])
  }

  /** `label.split_once('-')`, with a label that has no dash read as an inside label. */
  function SplitLabel(name: string): (string, string) {
    var d := DashAt(name);
    if d < |name| then (name[..d], name[d + 1..]) else ("I", name)
  }

  function TokenAt(i: nat, labelIds: seq<nat>, offsets: seq<Offset>, labels: seq<string>): Token
    requires i < |labelIds|
  {
    var off := if i < |offsets| then offsets[i] else Offset(0, 0);
    if off.start == off.end then Break
    else
      var name := if labelIds[i] < |labels| then labels[labelIds[i]] else "O";
      if name == "O" then Break
      else
        var (prefix, tag) := SplitLabel(name);
        Tagged(off.start, off.end, prefix == "I", tag)
  }

  function Tokens(labelIds: seq<nat>, offsets: seq<Offset>, labels: seq<string>): (toks: seq<Token>)
    ensures |toks| == |labelIds|
    ensures forall i | 0 <= i < |toks| :: toks[i] == TokenAt(i, labelIds, offsets, labels)
  {
    seq(|labelIds|, i requires 0 <= i < |labelIds| => TokenAt(i, labelIds, offsets, labels))
  }

  // ---- Maximal runs -----------------------------------------------------------------------

  /** Token `i` is an inside token that directly follows a token of the same tag. */
  predicate Continues(toks: seq<Token>, i: nat) {
    && 0 < i < |toks|
    && toks[i].Tagged? && toks[i].inside
    && toks[i - 1].Tagged? && toks[i - 1].tag == toks[i].tag
  }

  predicate Opens(toks: seq<Token>, i: nat) {
    i < |toks| && toks[i].Tagged? && !Continues(toks, i)
  }

  /** One past the last token of the run through `i`. */
  function RunEnd(toks: seq<Token>, i: nat): (e: nat)
    requires i < |toks| && toks[i].Tagged?
    ensures i < e <= |toks|
    ensures forall j | i < j < e :: Continues(toks, j)
    ensures forall j | i <= j < e :: toks[j].Tagged? && toks[j].tag == toks[i].tag
    ensures !Continues(toks, e)
    decreases |toks| - i
  {
    if Continues(toks, i + 1) then RunEnd(toks, i + 1) else i + 1
  }

  /** The span of the run opened at `i`. */
  function RunSpan(toks: seq<Token>, i: nat): Span
    requires Opens(toks, i)
  {
    Span(toks[i].start, toks[RunEnd(toks, i) - 1].end, toks[i].tag)
  }

  /** One span for every run that opens at or after `i`, in token order. */
  function RunSpans(toks: seq<Token>, i: nat): (spans: seq<Span>)
    requires i <= |toks|
    decreases |toks| - i
  {
    if i == |toks| then []
    else if Opens(toks, i) then [RunSpan(toks, i)] + RunSpans(toks, i + 1)
    else RunSpans(toks, i + 1)
  }

  function Collapse(labelIds: seq<nat>, offsets: seq<Offset>, labels: seq<string>): seq<Span> {
    RunSpans(Tokens(labelIds, offsets, labels), 0)
  }

  /** Every labelled token lies in a run that some token opens. */
  lemma {:induction false} TokenHasRun(toks: seq<Token>, i: nat) returns (a: nat)
    requires i < |toks| && toks[i].Tagged?
    ensures a <= i && Opens(toks, a) && i < RunEnd(toks, a)
  {
    if Opens(toks, i) {
      a := i;
    } else {
      a := TokenHasRun(toks, i - 1);
    }
  }

  lemma {:induction false} RunSpanListed(toks: seq<Token>, i: nat, a: nat)
    requires i <= a && Opens(toks, a)
    ensures RunSpan(toks, a) in RunSpans(toks, i)
    decreases a - i
  {
    if i < a { RunSpanListed(toks, i + 1, a); }
  }

  /** The last span of `spans`, stretched to `end`. */
  function Stretch(spans: seq<Span>, end: nat): seq<Span>
    requires spans != []
  {
    spans[..|spans| - 1] + [spans[|spans| - 1].(end := end)]
  }

  lemma {:induction false} RunEndSnoc(toks: seq<Token>, n: nat, j: nat)
    requires j < n < |toks| && toks[j].Tagged?
    ensures var e := RunEnd(toks[..n], j);
      RunEnd(toks[..n + 1], j) == if e == n && Continues(toks, n) then n + 1 else e
    decreases n - j
  {
    assert forall k | 0 <= k < n :: Continues(toks[..n], k) == Continues(toks[..n + 1], k) == Continues(toks, k);
    assert Continues(toks[..n + 1], n) == Continues(toks, n);
    if Continues(toks[..n], j + 1) { RunEndSnoc(toks, n, j + 1); }
  }

  /** Inside the run that reaches the end of `toks`, no further span is opened. */
  lemma {:induction false} NoSpanInsideLastRun(toks: seq<Token>, a: nat, i: nat)
    requires Opens(toks, a) && RunEnd(toks, a) == |toks| && a < i <= |toks|
    ensures RunSpans(toks, i) == []
    decreases |toks| - i
  {
    if i < |toks| { NoSpanInsideLastRun(toks, a, i + 1); }
  }

  /** A token that continues nothing leaves the runs before it as they are. */
  lemma SameRun(toks: seq<Token>, n: nat, i: nat)
    requires i < n < |toks| && !Continues(toks, n)
    ensures Opens(toks[..n], i) == Opens(toks[..n + 1], i)
    ensures Opens(toks[..n], i) ==> RunSpan(toks[..n], i) == RunSpan(toks[..n + 1], i)
  {
    hide RunEnd;
    assert Continues(toks[..n], i) == Continues(toks[..n + 1], i);
    if Opens(toks[..n], i) { RunEndSnoc(toks, n, i); }
  }

  lemma LastRun(toks: seq<Token>, n: nat)
    requires n < |toks| && !Continues(toks, n)
    ensures RunSpans(toks[..n], n) == []
    ensures RunSpans(toks[..n + 1], n) ==
      if toks[n].Tagged? then [Span(toks[n].start, toks[n].end, toks[n].tag)] else []
  {
    assert Continues(toks[..n + 1], n) == Continues(toks, n);
    assert RunSpans(toks[..n + 1], n + 1) == [];
  }

  /** A token that opens a run adds a span; one that breaks adds none. */
  lemma {:induction false} SnocFresh(toks: seq<Token>, n: nat, i: nat)
    requires i <= n < |toks| && !Continues(toks, n)
    ensures RunSpans(toks[..n + 1], i) == RunSpans(toks[..n], i) +
      if toks[n].Tagged? then [Span(toks[n].start, toks[n].end, toks[n].tag)] else []
    decreases n - i
  {
    hide Continues, Opens, RunEnd, RunSpan;
    if i < n {
      SnocFresh(toks, n, i + 1);
      SameRun(toks, n, i);
    } else {
      LastRun(toks, n);
    }
  }

  /** A continuing token stretches the span of the run it joins, which is the last one. */
  lemma {:induction false} SnocContinuing(toks: seq<Token>, n: nat, i: nat, a: nat)
    requires i <= a < n < |toks| && Continues(toks, n)
    requires Opens(toks[..n], a) && RunEnd(toks[..n], a) == n
    ensures RunSpans(toks[..n], i) != []
    ensures RunSpans(toks[..n + 1], i) == Stretch(RunSpans(toks[..n], i), toks[n].end)
    decreases n - i
  {
    var short, long := toks[..n], toks[..n + 1];
    assert forall k | 0 <= k < n :: Continues(short, k) == Continues(long, k) == Continues(toks, k);
    RunEndSnoc(toks, n, a);
    if i == a {
      NoSpanInsideLastRun(short, a, a + 1);
      NoSpanInsideLastRun(long, a, a + 1);
    } else {
      SnocContinuing(toks, n, i + 1, a);
      if Opens(short, i) { RunEndSnoc(toks, n, i); }
    }
  }

  // ---- collapse_bio -----------------------------------------------------------------------

  function Listed(current: Option<Span>): seq<Span> {
    match current
    case Some(span) => [span]
    case None => []
  }

  lemma StretchLast(spans: seq<Span>, last: Span, end: nat)
    ensures Stretch(spans + [last], end) == spans + [last.(end := end)]
  {
  }

  lemma NoTokens(toks: seq<Token>)
    requires toks == []
    ensures RunSpans(toks, 0) == []
  {
  }

  /** Collapse BIO labels into spans with one pass and one span in progress. */
  method CollapseBio(labelIds: seq<nat>, offsets: seq<Offset>, labels: seq<string>) returns (spans: seq<Span>)
    ensures spans == Collapse(labelIds, offsets, labels)
  {
    hide RunSpans, RunEnd, SplitLabel, Stretch;
    ghost var toks := Tokens(labelIds, offsets, labels);
    NoTokens(toks[..0]);
    spans := [];
    var current: Option<Span> := None;
    for i := 0 to |labelIds|
      invariant spans + Listed(current) == RunSpans(toks[..i], 0)
      invariant current.Some? <==> i > 0 && toks[i - 1].Tagged?
      invariant current.Some? ==> current.value.tag == toks[i - 1].tag
    {
      var off := if i < |offsets| then offsets[i] else Offset(0, 0);
      assert toks[i] == TokenAt(i, labelIds, offsets, labels);
      if off.start == off.end {
        SnocFresh(toks, i, 0);
        spans, current := spans + Listed(current), None;
        continue;
      }
      var name := if labelIds[i] < |labels| then labels[labelIds[i]] else "O";
      if name == "O" {
        SnocFresh(toks, i, 0);
        spans, current := spans + Listed(current), None;
        continue;
      }
      var (prefix, tag) := SplitLabel(name);
      if current.Some? && prefix == "I" && current.value.tag == tag {
        ghost var a := TokenHasRun(toks[..i], i - 1);
        SnocContinuing(toks, i, 0, a);
        StretchLast(spans, current.value, off.end);
        current := Some(current.value.(end := off.end));
      } else {
        SnocFresh(toks, i, 0);
        spans, current := spans + Listed(current), Some(Span(off.start, off.end, tag));
      }
    }
    assert toks[..|labelIds|] == toks;
    spans := spans + Listed(current);
  }

  // ---- Padding and geometry ---------------------------------------------------------------

  /** Labels past the last offset, which is what padding produces, add no span. */
  lemma {:induction false} PaddingIgnored(row: seq<nat>, offsets: seq<Offset>, labels: seq<string>)
    requires |offsets| <= |row|
    ensures Collapse(row, offsets, labels) == Collapse(row[..|offsets|], offsets, labels)
  {
    if |offsets| == |row| {
      assert row[..|offsets|] == row;
    } else {
      var n := |row| - 1;
      var toks := Tokens(row, offsets, labels);
      PaddingIgnored(row[..n], offsets, labels);
      assert row[..n][..|offsets|] == row[..|offsets|];
      assert Tokens(row[..n], offsets, labels) == toks[..n];
      assert toks[..n + 1] == toks;
      SnocFresh(toks, n, 0);
    }
  }

  /** The labelled tokens are non-empty, within `len`, and one after the other. */
  ghost predicate InOrder(toks: seq<Token>, len: nat) {
    && (forall i | 0 <= i < |toks| && toks[i].Tagged? :: toks[i].start < toks[i].end <= len)
    && (forall i, j | 0 <= i < j < |toks| && toks[i].Tagged? && toks[j].Tagged? :: toks[i].end <= toks[j].start)
  }

  /** Non-empty spans in order, apart, and inside `[from, len)`. */
  predicate Strict(spans: seq<Span>, from: nat, len: nat) {
    && (forall k | 0 <= k < |spans| :: from <= spans[k].start < spans[k].end <= len)
    && (forall j, k | 0 <= j < k < |spans| :: spans[j].end <= spans[k].start)
  }

  lemma StrictCons(span: Span, spans: seq<Span>, from: nat, len: nat)
    requires from <= span.start < span.end <= len && Strict(spans, span.end, len)
    ensures Strict([span] + spans, from, len)
  {
  }

  /** A run ends before any later run opens. */
  lemma RunApart(toks: seq<Token>, i: nat, len: nat)
    requires Opens(toks, i) && InOrder(toks, len)
    ensures RunSpan(toks, i).start < RunSpan(toks, i).end <= len
    ensures forall a | i < a < |toks| && Opens(toks, a) :: RunSpan(toks, i).end <= toks[a].start
  {
  }

  lemma {:induction false} RunSpansStrict(toks: seq<Token>, i: nat, from: nat, len: nat)
    requires i <= |toks| && InOrder(toks, len)
    requires forall a | i <= a < |toks| && Opens(toks, a) :: from <= toks[a].start
    ensures Strict(RunSpans(toks, i), from, len)
    decreases |toks| - i
  {
    hide InOrder, Continues;
    if i == |toks| {
    } else if Opens(toks, i) {
      RunApart(toks, i, len);
      RunSpansStrict(toks, i + 1, RunSpan(toks, i).end, len);
      StrictCons(RunSpan(toks, i), RunSpans(toks, i + 1), from, len);
    } else {
      RunSpansStrict(toks, i + 1, from, len);
    }
  }

  /** The bytes of a labelled token lie inside one of the spans. */
  lemma TokenInSpan(toks: seq<Token>, i: nat, len: nat) returns (span: Span)
    requires i < |toks| && toks[i].Tagged? && InOrder(toks, len)
    ensures span in RunSpans(toks, 0) && span.tag == toks[i].tag
    ensures span.start <= toks[i].start && toks[i].end <= span.end
  {
    var a := TokenHasRun(toks, i);
    RunSpanListed(toks, 0, a);
    span := RunSpan(toks, a);
    var last := RunEnd(toks, a) - 1;
    assert a < i ==> toks[a].end <= toks[i].start;
    assert i < last ==> toks[i].end <= toks[last].start;
  }

  /** Every span starts where some labelled token starts, and ends where one ends. */
  lemma {:induction false} SpanEnds(toks: seq<Token>, i: nat, k: nat) returns (a: nat, e: nat)
    requires i <= |toks| && k < |RunSpans(toks, i)|
    ensures a < |toks| && toks[a].Tagged? && RunSpans(toks, i)[k].start == toks[a].start
    ensures e < |toks| && toks[e].Tagged? && RunSpans(toks, i)[k].end == toks[e].end
    decreases |toks| - i
  {
    if Opens(toks, i) && k == 0 {
      a, e := i, RunEnd(toks, i) - 1;
    } else {
      a, e := SpanEnds(toks, i + 1, if Opens(toks, i) then k - 1 else k);
    }
  }
}
