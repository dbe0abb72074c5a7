/**
 Replacing spans by numbered placeholders (`replace_spans`, scrubber/ner.rs), and what that does
 to the bytes of the text.
 */
module Splice {
  import opened Sorting
  import opened Spans

  /** `str::is_char_boundary`: position `i` does not fall on a UTF-8 continuation byte. */
  predicate IsBoundary(text: string, i: nat) {
    i == 0 || i == |text| || (i < |text| && !(0x80 <= text[i] as int < 0xC0))
  }

  /** `from_utf8(&bytes[from..to]).unwrap_or("")`: a cut through a character yields nothing. */
  function Slice(text: string, from: nat, to: nat): string {
    if from < to <= |text| && IsBoundary(text, from) && IsBoundary(text, to) then text[from..to] else ""
  }

  function Decimal(n: nat): string {
    if n < 10 then [('0' as int + n) as char] else Decimal(n / 10) + [('0' as int + n % 10) as char]
  }

  // ---- Which spans are used ---------------------------------------------------------------

  predicate StartLeq(a: Span, b: Span) {
    a.start <= b.start
  }

  predicate Upright(spans: seq<Span>) {
    forall k | 0 <= k < |spans| :: spans[k].start <= spans[k].end
  }

  /** The spans lie inside `[from, len)`, one after the other. */
  predicate Laid(spans: seq<Span>, from: nat, len: nat) {
    && (forall k | 0 <= k < |spans| :: from <= spans[k].start <= spans[k].end <= len)
    && (forall j, k | 0 <= j < k < |spans| :: spans[j].end <= spans[k].start)
  }

  /** Greedy choice: a span that overlaps the last chosen one, or leaves the text, is passed over. */
  function Accept(spans: seq<Span>, cursor: nat, len: nat): seq<Span> {
    if spans == [] then []
    else if spans[0].start < cursor || spans[0].end > len then Accept(spans[1..], cursor, len)
    else [spans[0]] + Accept(spans[1..], spans[0].end, len)
  }

  /** The chosen spans are some of the given ones, none of them ends outside the text. */
  lemma {:induction false} AcceptMembers(spans: seq<Span>, cursor: nat, len: nat)
    ensures forall k | 0 <= k < |Accept(spans, cursor, len)| ::
      Accept(spans, cursor, len)[k] in spans && Accept(spans, cursor, len)[k].end <= len
  {
    if spans == [] {
    } else if spans[0].start < cursor || spans[0].end > len {
      AcceptMembers(spans[1..], cursor, len);
    } else {
      AcceptMembers(spans[1..], spans[0].end, len);
    }
  }

  /** The chosen spans are laid out one after the other exactly when none of them ends before it starts. */
  lemma {:induction false} AcceptLaid(spans: seq<Span>, cursor: nat, len: nat)
    ensures Laid(Accept(spans, cursor, len), cursor, len) <==> Upright(Accept(spans, cursor, len))
  {
    if spans == [] {
    } else if spans[0].start < cursor || spans[0].end > len {
      AcceptLaid(spans[1..], cursor, len);
    } else {
      var rest := Accept(spans[1..], spans[0].end, len);
      AcceptLaid(spans[1..], spans[0].end, len);
      UprightCons(spans[0], rest);
    }
  }

  lemma UprightCons(span: Span, rest: seq<Span>)
    ensures Upright([span] + rest) <==> span.start <= span.end && Upright(rest)
  {
    if Upright([span] + rest) {
      assert ([span] + rest)[0] == span;
      forall k | 0 <= k < |rest| ensures rest[k].start <= rest[k].end {
        assert ([span] + rest)[k + 1] == rest[k];
      }
    }
  }

  /** Nothing is passed over when the spans are already in order, apart and in bounds. */
  lemma {:induction false} AcceptAll(spans: seq<Span>, cursor: nat, len: nat)
    requires Laid(spans, cursor, len)
    ensures Accept(spans, cursor, len) == spans
  {
    if spans != [] { AcceptAll(spans[1..], spans[0].end, len); }
  }

  /** The spans used for `text`: in order of start, greedily. */
  function Used(text: string, spans: seq<Span>): seq<Span> {
    Accept(StableSort(spans, StartLeq), 0, |text|)
  }

  lemma UsedLaid(text: string, spans: seq<Span>)
    ensures Laid(Used(text, spans), 0, |text|) <==> Upright(Used(text, spans))
    ensures Upright(spans) ==> Laid(Used(text, spans), 0, |text|)
  {
    var sorted := StableSort(spans, StartLeq);
    SortPermutes(spans, StartLeq);
    AcceptLaid(sorted, 0, |text|);
    AcceptMembers(sorted, 0, |text|);
    forall k | 0 <= k < |Used(text, spans)| ensures Used(text, spans)[k] in spans {
      assert Used(text, spans)[k] in multiset(sorted);
    }
  }

  /** No span starts past the end of the text and ends inside it; the program cannot slice up to such a start. */
  predicate Sliceable(spans: seq<Span>, len: nat) {
    forall k | 0 <= k < |spans| :: spans[k].start <= len || len < spans[k].end
  }

  lemma UprightIsSliceable(spans: seq<Span>, len: nat)
    requires Upright(spans)
    ensures Sliceable(spans, len)
  {
  }

  /** A span that cannot be sliced up to is always chosen, so `Sliceable` excludes nothing else. */
  lemma {:induction false} UnsliceableIsChosen(spans: seq<Span>, cursor: nat, len: nat)
    requires cursor <= len
    ensures Sliceable(spans, len) <==> Sliceable(Accept(spans, cursor, len), len)
  {
    if spans == [] {
    } else {
      var skipped := spans[0].start < cursor || spans[0].end > len;
      var next := if skipped then cursor else spans[0].end;
      UnsliceableIsChosen(spans[1..], next, len);
      SliceableCons(spans[0], spans[1..], len);
      SliceableCons(spans[0], Accept(spans[1..], next, len), len);
      assert spans == [spans[0]] + spans[1..];
    }
  }

  lemma SliceableCons(span: Span, rest: seq<Span>, len: nat)
    ensures Sliceable([span] + rest, len) <==> (span.start <= len || len < span.end) && Sliceable(rest, len)
  {
    if Sliceable([span] + rest, len) {
      assert ([span] + rest)[0] == span;
      forall k | 0 <= k < |rest| ensures rest[k].start <= len || len < rest[k].end {
        assert ([span] + rest)[k + 1] == rest[k];
      }
    }
  }

  // ---- The redacted text ------------------------------------------------------------------

  /** Copied bytes and placeholders, in turn: the structure behind a redacted text. */
  datatype Redacted =
    | Rest(copied: string)
    | Mark(copied: string, tag: string, n: nat, next: Redacted)

  function Marker(tag: string, n: nat): string {
    "[" + tag + "_" + Decimal(n) + "]"
  }

  function Show(r: Redacted): string {
    match r
    case Rest(copied) => copied
    case Mark(copied, tag, n, next) => copied + Marker(tag, n) + Show(next)
  }

  /** How many of the first `n` spans carry `tag`. */
  function CountTag(spans: seq<Span>, n: nat, tag: string): nat
    requires n <= |spans|
  {
    if n == 0 then 0 else CountTag(spans, n - 1, tag) + if spans[n - 1].tag == tag then 1 else 0
  }

  /** The placeholder of span `k` is numbered by its rank among the spans of its tag. */
  function Rank(spans: seq<Span>, k: nat): nat
    requires k < |spans|
  {
    CountTag(spans, k + 1, spans[k].tag)
  }

  function EndBefore(spans: seq<Span>, k: nat): nat
    requires k <= |spans|
  {
    if k == 0 then 0 else spans[k - 1].end
  }

  function StartAfter(text: string, spans: seq<Span>, k: nat): nat
    requires k <= |spans|
  {
    if k == |spans| then |text| else spans[k].start
  }

  /** The redaction of `text` from the end of span `k - 1` on. */
  function RedactFrom(text: string, spans: seq<Span>, k: nat): Redacted
    requires k <= |spans|
    decreases |spans| - k
  {
    var copied := Slice(text, EndBefore(spans, k), StartAfter(text, spans, k));
    if k == |spans| then Rest(copied)
    else Mark(copied, spans[k].tag, Rank(spans, k), RedactFrom(text, spans, k + 1))
  }

  function Redact(text: string, spans: seq<Span>): Redacted {
    RedactFrom(text, spans, 0)
  }

  // ---- replace_spans ----------------------------------------------------------------------

  function CountIn(counts: map<string, nat>, tag: string): nat {
    if tag in counts then counts[tag] else 0
  }

  ghost predicate Tallies(counts: map<string, nat>, spans: seq<Span>, n: nat)
    requires n <= |spans|
  {
    forall tag :: CountIn(counts, tag) == CountTag(spans, n, tag)
  }

  lemma TallyOne(counts: map<string, nat>, spans: seq<Span>, k: nat)
    requires k < |spans| && Tallies(counts, spans, k)
    ensures CountIn(counts, spans[k].tag) + 1 == Rank(spans, k)
    ensures Tallies(counts[spans[k].tag := Rank(spans, k)], spans, k + 1)
  {
    var tallied := counts[spans[k].tag := Rank(spans, k)];
    forall tag ensures CountIn(tallied, tag) == CountTag(spans, k + 1, tag) {
      assert CountIn(counts, tag) == CountTag(spans, k, tag);
    }
  }

  lemma AcceptStep(sorted: seq<Span>, i: nat, cursor: nat, len: nat)
    requires i <= |sorted|
    ensures Accept(sorted[i..], cursor, len) == (
      if i == |sorted| then []
      else if sorted[i].start < cursor || sorted[i].end > len then Accept(sorted[i + 1..], cursor, len)
      else [sorted[i]] + Accept(sorted[i + 1..], sorted[i].end, len))
  {
  }

  lemma HeadOfTail(spans: seq<Span>, k: nat, head: Span, tail: seq<Span>)
    requires k <= |spans| && spans[k..] == [head] + tail
    ensures k < |spans| && spans[k] == head && spans[k + 1..] == tail
  {
  }

  /** Copying up to span `k` and marking it moves the redaction on by one span. */
  lemma ShowStep(text: string, spans: seq<Span>, k: nat, out: string)
    requires k < |spans|
    ensures out + Show(RedactFrom(text, spans, k)) ==
      out + Slice(text, EndBefore(spans, k), spans[k].start) + Marker(spans[k].tag, Rank(spans, k))
      + Show(RedactFrom(text, spans, k + 1))
  {
    hide IsBoundary, Slice, Marker, Rank;
  }

  lemma ShowRest(text: string, spans: seq<Span>)
    ensures Show(RedactFrom(text, spans, |spans|)) == Slice(text, EndBefore(spans, |spans|), |text|)
    ensures Slice(text, |text|, |text|) == "" && Slice(text, 0, |text|) == text
  {
  }

  /** `replace_spans`: sort by start, pass over misfits, copy and number as it goes. */
  method ReplaceSpans(text: string, spans: seq<Span>) returns (out: string)
    requires Sliceable(spans, |text|)
    ensures Upright(spans) ==> Laid(Used(text, spans), 0, |text|)
    ensures out == Show(Redact(text, Used(text, spans)))
  {
    hide Laid, Upright, Slice, Rank, CountTag, Accept, Show, Marker, RedactFrom, Tallies;
    UsedLaid(text, spans);
    ghost var used := Used(text, spans);
    var sorted := StableSort(spans, StartLeq);
    SortPermutes(spans, StartLeq);
    if spans == [] {
      AcceptStep(sorted, 0, 0, |text|);
      ShowRest(text, used);
      return text;
    }
    var counts: map<string, nat> := map[];
    out := "";
    var cursor: nat := 0;
    ghost var k: nat := 0;
    NoTally(used);
    assert used[0..] == used && sorted[0..] == sorted;
    for i := 0 to |sorted|
      invariant k <= |used| && cursor == EndBefore(used, k) && cursor <= |text|
      invariant used[k..] == Accept(sorted[i..], cursor, |text|)
      invariant Tallies(counts, used, k)
      invariant out + Show(RedactFrom(text, used, k)) == Show(Redact(text, used))
    {
      var span := sorted[i];
      AcceptStep(sorted, i, cursor, |text|);
      if span.start < cursor || span.end > |text| {
        continue;
      }
      assert span in multiset(sorted);
      assert cursor <= span.start <= |text|;
      HeadOfTail(used, k, span, Accept(sorted[i + 1..], span.end, |text|));
      TallyOne(counts, used, k);
      ShowStep(text, used, k, out);
      var n := CountIn(counts, span.tag) + 1;
      counts := counts[span.tag := n];
      out := out + Slice(text, cursor, span.start) + Marker(span.tag, n);
      cursor := span.end;
      k := k + 1;
    }
    AcceptStep(sorted, |sorted|, cursor, |text|);
    ShowRest(text, used);
    if cursor < |text| {
      out := out + Slice(text, cursor, |text|);
    }
  }

  lemma NoTally(spans: seq<Span>)
    ensures Tallies(map[], spans, 0)
  {
  }

  // ---- What the redaction does to the bytes ------------------------------------------------

  predicate Covered(spans: seq<Span>, p: nat) {
    exists k :: 0 <= k < |spans| && spans[k].start <= p < spans[k].end
  }

  /** The bytes at positions `from <= p < to` that no span covers, in order. */
  function Outside(text: string, spans: seq<Span>, from: nat, to: nat): string
    requires from <= to <= |text|
    decreases |text| - from
  {
    if from == to then ""
    else (if Covered(spans, from) then "" else [text[from]]) + Outside(text, spans, from + 1, to)
  }

  /** Everything the redaction copies. */
  function CopiedBytes(r: Redacted): string {
    match r
    case Rest(copied) => copied
    case Mark(copied, _, _, next) => copied + CopiedBytes(next)
  }

  /** The part of a redaction before its placeholder `k`, that placeholder left out. */
  function Before(r: Redacted, k: nat): Redacted {
    match r
    case Rest(copied) => r
    case Mark(copied, tag, n, next) => if k == 0 then Rest(copied) else Mark(copied, tag, n, Before(next, k - 1))
  }

  /** The tags and numbers of the placeholders, in order of appearance. */
  function Marks(r: Redacted): seq<(string, nat)> {
    match r
    case Rest(_) => []
    case Mark(_, tag, n, next) => [(tag, n)] + Marks(next)
  }

  predicate Aligned(text: string, spans: seq<Span>) {
    forall k | 0 <= k < |spans| :: IsBoundary(text, spans[k].start) && IsBoundary(text, spans[k].end)
  }

  lemma {:induction false} OutsideSplit(text: string, spans: seq<Span>, from: nat, mid: nat, to: nat)
    requires from <= mid <= to <= |text|
    ensures Outside(text, spans, from, to) == Outside(text, spans, from, mid) + Outside(text, spans, mid, to)
    decreases mid - from
  {
    if from < mid { OutsideSplit(text, spans, from + 1, mid, to); }
  }

  lemma {:induction false} OutsideFree(text: string, spans: seq<Span>, from: nat, to: nat)
    requires from <= to <= |text|
    requires forall p | from <= p < to :: !Covered(spans, p)
    ensures Outside(text, spans, from, to) == text[from..to]
    decreases |text| - from
  {
    if from < to {
      OutsideFree(text, spans, from + 1, to);
      assert text[from..to] == [text[from]] + text[from + 1..to];
    }
  }

  lemma {:induction false} OutsideCovered(text: string, spans: seq<Span>, from: nat, to: nat)
    requires from <= to <= |text|
    requires forall p | from <= p < to :: Covered(spans, p)
    ensures Outside(text, spans, from, to) == ""
    decreases |text| - from
  {
    if from < to { OutsideCovered(text, spans, from + 1, to); }
  }

  lemma SliceAligned(text: string, from: nat, to: nat)
    requires from <= to <= |text| && IsBoundary(text, from) && IsBoundary(text, to)
    ensures Slice(text, from, to) == text[from..to]
  {
  }

  lemma GapAligned(text: string, spans: seq<Span>, k: nat)
    requires k <= |spans| && Laid(spans, 0, |text|) && Aligned(text, spans)
    ensures EndBefore(spans, k) <= StartAfter(text, spans, k) <= |text|
    ensures IsBoundary(text, EndBefore(spans, k)) && IsBoundary(text, StartAfter(text, spans, k))
  {
  }

  /** Between two neighbouring spans everything is copied, inside a span nothing is. */
  lemma GapCopied(text: string, spans: seq<Span>, k: nat)
    requires k <= |spans| && Laid(spans, 0, |text|) && Aligned(text, spans)
    ensures EndBefore(spans, k) <= StartAfter(text, spans, k) <= |text|
    ensures Slice(text, EndBefore(spans, k), StartAfter(text, spans, k))
         == Outside(text, spans, EndBefore(spans, k), StartAfter(text, spans, k))
    ensures k < |spans| ==> Outside(text, spans, spans[k].start, spans[k].end) == ""
  {
    hide IsBoundary, Aligned, Outside, Slice;
    var from, to := EndBefore(spans, k), StartAfter(text, spans, k);
    GapAligned(text, spans, k);
    SliceAligned(text, from, to);
    forall p | from <= p < to ensures !Covered(spans, p) {
      forall j | 0 <= j < |spans| ensures !(spans[j].start <= p < spans[j].end) {
        if j < k { assert spans[j].end <= from; }
      }
    }
    OutsideFree(text, spans, from, to);
    if k < |spans| { OutsideCovered(text, spans, spans[k].start, spans[k].end); }
  }

  lemma {:induction false} MarksFrom(text: string, spans: seq<Span>, k: nat)
    requires k <= |spans|
    ensures var marks := Marks(RedactFrom(text, spans, k));
      |marks| == |spans| - k && forall j | 0 <= j < |marks| :: marks[j] == (spans[k + j].tag, Rank(spans, k + j))
    decreases |spans| - k
  {
    hide IsBoundary, Slice, Rank, CountTag, EndBefore, StartAfter;
    if k < |spans| { MarksFrom(text, spans, k + 1); }
  }

  /** The copied stretches before spans `k` to `j`, one after the other. */
  function Gaps(text: string, spans: seq<Span>, k: nat, j: nat): string
    requires k <= j <= |spans|
    decreases j - k
  {
    var gap := Slice(text, EndBefore(spans, k), StartAfter(text, spans, k));
    if k == j then gap else gap + Gaps(text, spans, k + 1, j)
  }

  lemma {:induction false} BeforeIsGaps(text: string, spans: seq<Span>, k: nat, j: nat)
    requires k <= j <= |spans|
    ensures CopiedBytes(Before(RedactFrom(text, spans, k), j - k)) == Gaps(text, spans, k, j)
    decreases j - k
  {
    hide IsBoundary, Slice, Rank, CountTag, EndBefore, StartAfter;
    if k < j { BeforeIsGaps(text, spans, k + 1, j); }
  }

  lemma SkipSpan(text: string, spans: seq<Span>, k: nat, to: nat)
    requires k < |spans| && Laid(spans, 0, |text|) && Aligned(text, spans)
    requires spans[k].end <= to <= |text|
    ensures EndBefore(spans, k) <= spans[k].start
    ensures Outside(text, spans, EndBefore(spans, k), to)
         == Slice(text, EndBefore(spans, k), spans[k].start) + Outside(text, spans, spans[k].end, to)
  {
    GapCopied(text, spans, k);
    OutsideSplit(text, spans, EndBefore(spans, k), spans[k].start, to);
    OutsideSplit(text, spans, spans[k].start, spans[k].end, to);
  }

  lemma {:induction false} GapsAreOutside(text: string, spans: seq<Span>, k: nat, j: nat)
    requires k <= j <= |spans| && Laid(spans, 0, |text|) && Aligned(text, spans)
    ensures EndBefore(spans, k) <= StartAfter(text, spans, j) <= |text|
    ensures Gaps(text, spans, k, j) == Outside(text, spans, EndBefore(spans, k), StartAfter(text, spans, j))
    decreases j - k
  {
    hide Outside, Slice, Aligned;
    if k == j {
      GapCopied(text, spans, k);
    } else {
      GapsAreOutside(text, spans, k + 1, j);
      SkipSpan(text, spans, k, StartAfter(text, spans, j));
    }
  }

  lemma {:induction false} BeforeEnd(r: Redacted, k: nat)
    requires |Marks(r)| <= k
    ensures Before(r, k) == r
  {
    if r.Mark? { BeforeEnd(r.next, k - 1); }
  }

  /**
   Exactly the bytes outside the spans are copied, once and in order.  There is one placeholder a
   span: placeholder `k` carries the tag of span `k` and its rank among the spans of that tag, and
   stands after exactly the uncovered bytes that precede span `k`.
   */
  lemma RedactionExact(text: string, spans: seq<Span>)
    requires Laid(spans, 0, |text|) && Aligned(text, spans)
    ensures CopiedBytes(Redact(text, spans)) == Outside(text, spans, 0, |text|)
    ensures |Marks(Redact(text, spans))| == |spans|
    ensures forall k | 0 <= k < |spans| ::
      && Marks(Redact(text, spans))[k] == (spans[k].tag, Rank(spans, k))
      && CopiedBytes(Before(Redact(text, spans), k)) == Outside(text, spans, 0, spans[k].start)
  {
    MarksFrom(text, spans, 0);
    BeforeIsGaps(text, spans, 0, |spans|);
    GapsAreOutside(text, spans, 0, |spans|);
    BeforeEnd(Redact(text, spans), |spans|);
    forall k | 0 <= k < |spans|
      ensures CopiedBytes(Before(Redact(text, spans), k)) == Outside(text, spans, 0, spans[k].start)
    {
      BeforeIsGaps(text, spans, 0, k);
      GapsAreOutside(text, spans, 0, k);
    }
  }

  /** How many bytes the spans from `k` on take out: less than nothing for one that ends before it starts. */
  function Width(spans: seq<Span>, k: nat): int
    requires k <= |spans|
    decreases |spans| - k
  {
    if k == |spans| then 0 else spans[k].end - spans[k].start + Width(spans, k + 1)
  }

  /** Each span starts, inside the text, where the one before it has ended or later. */
  predicate Chained(spans: seq<Span>, len: nat) {
    forall k | 0 <= k < |spans| :: EndBefore(spans, k) <= spans[k].start <= len && spans[k].end <= len
  }

  lemma {:induction false} AcceptChained(spans: seq<Span>, cursor: nat, len: nat)
    requires Sliceable(spans, len)
    ensures Chained(Accept(spans, cursor, len), len)
    ensures Accept(spans, cursor, len) != [] ==> cursor <= Accept(spans, cursor, len)[0].start
  {
    if spans == [] {
    } else if spans[0].start < cursor || spans[0].end > len {
      AcceptChained(spans[1..], cursor, len);
    } else {
      var rest := Accept(spans[1..], spans[0].end, len);
      AcceptChained(spans[1..], spans[0].end, len);
      ChainedCons(spans[0], rest, len);
    }
  }

  lemma ChainedCons(span: Span, rest: seq<Span>, len: nat)
    requires span.start <= len && span.end <= len && Chained(rest, len)
    requires rest != [] ==> span.end <= rest[0].start
    ensures Chained([span] + rest, len)
  {
    var spans := [span] + rest;
    forall k | 0 <= k < |spans|
      ensures EndBefore(spans, k) <= spans[k].start <= len && spans[k].end <= len
    {
      if k > 0 { assert EndBefore(rest, k - 1) <= rest[k - 1].start; }
    }
  }

  /**
   Whatever the spans, the bytes copied and the widths of the spans used add up to the text: a span
   that ends before it starts has the bytes between copied once more.
   */
  lemma CopiedLength(text: string, spans: seq<Span>)
    requires Sliceable(spans, |text|) && Aligned(text, Used(text, spans))
    ensures |CopiedBytes(Redact(text, Used(text, spans)))| == |text| - Width(Used(text, spans), 0)
  {
    hide Aligned, Sliceable, Chained;
    SortPermutes(spans, StartLeq);
    var sorted := StableSort(spans, StartLeq);
    SliceablePermuted(spans, sorted, |text|);
    AcceptChained(sorted, 0, |text|);
    CopiedFrom(text, Used(text, spans), 0);
  }

  lemma SliceablePermuted(spans: seq<Span>, sorted: seq<Span>, len: nat)
    requires Sliceable(spans, len) && multiset(sorted) == multiset(spans)
    ensures Sliceable(sorted, len)
  {
    forall k | 0 <= k < |sorted| ensures sorted[k].start <= len || len < sorted[k].end {
      assert sorted[k] in multiset(sorted);
      assert sorted[k] in spans;
    }
  }

  lemma {:induction false} CopiedFrom(text: string, spans: seq<Span>, k: nat)
    requires k <= |spans| && Chained(spans, |text|) && Aligned(text, spans)
    ensures |CopiedBytes(RedactFrom(text, spans, k))| == |text| - EndBefore(spans, k) - Width(spans, k)
    decreases |spans| - k
  {
    hide IsBoundary;
    SliceLength(text, EndBefore(spans, k), StartAfter(text, spans, k));
    if k < |spans| { CopiedFrom(text, spans, k + 1); }
  }

  lemma SliceLength(text: string, from: nat, to: nat)
    requires from <= to <= |text| && IsBoundary(text, from) && IsBoundary(text, to)
    ensures |Slice(text, from, to)| == to - from
  {
  }
}
