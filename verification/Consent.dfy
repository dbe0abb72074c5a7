/** Whether emission is permitted: the newest attestation row first, operator config otherwise (capture/consent.rs). */
module Consent {
  import opened Wrappers
  import opened Ordering
  import opened JsonValue
  import opened Sorting

  const CONSENT_DIMENSION := "consent:community_trust:v1"

  datatype Attestation = Attestation(id: string, kind: string, assertedAt: int, envelope: Json)

  datatype GrantState =
    | InForce(assertedAt: int)
    | WithdrawnGrant(at: int)
    | Absent

  datatype Resolution =
    | CegGrant(assertedAt: int)
    | ConfigFallback(consentTimestamp: string)
    | Withdrawn(at: int)
    | NoConsent

  predicate Matches(row: Attestation) {
    row.envelope.GetStr("dimension") == Some(CONSENT_DIMENSION)
  }

  predicate Grants(row: Attestation) {
    row.kind == "scores" || row.kind == "supersedes"
  }

  predicate Withdraws(row: Attestation) {
    row.kind == "withdraws" || row.kind == "recants"
  }

  /** What a row says when it is the newest word on the dimension. */
  function Verdict(row: Attestation): GrantState {
    if Grants(row) then InForce(row.assertedAt)
    else if Withdraws(row) then WithdrawnGrant(row.assertedAt)
    else Absent
  }

  /** Newest first, the greater id first among rows of one instant. */
  predicate NewerFirst(a: Attestation, b: Attestation) {
    b.assertedAt < a.assertedAt || (b.assertedAt == a.assertedAt && LexLeq(b.id, a.id))
  }

  function Matching(rows: seq<Attestation>): seq<Attestation> {
    if rows == [] then []
    else Matching(rows[..|rows| - 1]) + if Matches(rows[|rows| - 1]) then [rows[|rows| - 1]] else []
  }

  function Grant(rows: seq<Attestation>): GrantState {
    var sorted := StableSort(Matching(rows), NewerFirst);
    if sorted == [] then Absent else Verdict(sorted[0])
  }

  method ResolveGrant(rows: seq<Attestation>) returns (grant: GrantState)
    ensures grant == Grant(rows)
  {
    hide Matches, Verdict;
    var matching := [];
    assert rows[..|rows|] == rows;
    for i := 0 to |rows|
      invariant matching == Matching(rows[..i])
    {
      assert rows[..i + 1][..i] == rows[..i];
      if Matches(rows[i]) {
        matching := matching + [rows[i]];
      }
    }
    SortPermutes(matching, NewerFirst);
    if matching == [] {
      return Absent;
    }
    var sorted := StableSort(matching, NewerFirst);
    grant := Verdict(sorted[0]);
  }

  // ---- The newest row decides ---------------------------------------------------------------------

  lemma NewerFirstIsPreorder()
    ensures TotalPreorder(NewerFirst)
  {
    forall a, b ensures NewerFirst(a, b) || NewerFirst(b, a) {
      LexTotal(a.id, b.id);
    }
    forall a, b, c | NewerFirst(a, b) && NewerFirst(b, c) ensures NewerFirst(a, c) {
      if a.assertedAt == b.assertedAt == c.assertedAt { LexTransitive(c.id, b.id, a.id); }
    }
  }

  lemma {:induction false} MatchingExact(rows: seq<Attestation>, row: Attestation)
    ensures row in Matching(rows) <==> row in rows && Matches(row)
  {
    hide Matches;
    if rows != [] {
      MatchingExact(rows[..|rows| - 1], row);
      assert rows == rows[..|rows| - 1] + [rows[|rows| - 1]];
    }
  }

  /** The row is about the consent dimension. */
  predicate OnDimension(row: Attestation) {
    row.envelope.Get("dimension") == Some(Str("consent:community_trust:v1"))
  }

  /** `row` speaks last: every other row on the dimension is older, or as old with an id before it in byte order. */
  ghost predicate Newest(rows: seq<Attestation>, row: Attestation) {
    && row in rows && OnDimension(row)
    && forall other | other in rows && OnDimension(other) && other != row ::
         other.assertedAt < row.assertedAt || (other.assertedAt == row.assertedAt && ComesBefore(other.id, row.id))
  }

  lemma OlderIsLater(other: Attestation, row: Attestation)
    requires other.assertedAt < row.assertedAt || (other.assertedAt == row.assertedAt && ComesBefore(other.id, row.id))
    ensures !NewerFirst(other, row)
  {
    hide LexLeq, ComesBefore;
    LexIsByteOrder(other.id, row.id);
    LexIsByteOrder(row.id, other.id);
    if other.assertedAt == row.assertedAt && LexLeq(row.id, other.id) {
      LexAntisymmetric(other.id, row.id);
      NotBeforeItself(row.id);
    }
  }

  lemma NotBeforeItself(id: string)
    ensures !ComesBefore(id, id)
  {
  }

  /**
   The grant is the verdict of the newest row alone.  Since nothing else about `rows` is mentioned,
   their order, rows on other dimensions and older rows make no difference.
   */
  lemma GrantIsNewest(rows: seq<Attestation>, row: Attestation)
    requires Newest(rows, row)
    ensures Grant(rows) == Verdict(row)
    ensures Grant(rows) ==
      if row.kind in {"scores", "supersedes"} then InForce(row.assertedAt)
      else if row.kind in {"withdraws", "recants"} then WithdrawnGrant(row.assertedAt)
      else Absent
  {
    hide Verdict, NewerFirst, ComesBefore, StableSort, Matching;
    var matching := Matching(rows);
    var sorted := StableSort(matching, NewerFirst);
    SortPermutes(matching, NewerFirst);
    NewerFirstIsPreorder();
    SortSorts(matching, NewerFirst);
    MatchingExact(rows, row);
    assert row in multiset(sorted);
    var i :| 0 <= i < |sorted| && sorted[i] == row;
    assert sorted[0] in multiset(matching);
    MatchingExact(rows, sorted[0]);
    assert i > 0 ==> NewerFirst(sorted[0], sorted[i]);
    if sorted[0] != row { OlderIsLater(sorted[0], row); }
    VerdictReads(row);
  }

  lemma VerdictReads(row: Attestation)
    ensures Verdict(row) ==
      if row.kind in {"scores", "supersedes"} then InForce(row.assertedAt)
      else if row.kind in {"withdraws", "recants"} then WithdrawnGrant(row.assertedAt)
      else Absent
  {
  }

  lemma GrantAbsent(rows: seq<Attestation>)
    requires forall row | row in rows :: !OnDimension(row)
    ensures Grant(rows) == Absent
  {
    hide StableSort, Matching;
    var matching := Matching(rows);
    SortPermutes(matching, NewerFirst);
    if matching != [] { MatchingExact(rows, matching[0]); }
  }

  /** Rows are told apart by their ids. */
  ghost predicate UniqueIds(rows: seq<Attestation>) {
    forall a, b | a in rows && b in rows && a.id == b.id :: a == b
  }

  /** With unique ids there is a newest row as soon as any row is on the dimension. */
  lemma NewestExists(rows: seq<Attestation>) returns (row: Attestation)
    requires UniqueIds(rows) && exists r :: r in rows && OnDimension(r)
    ensures Newest(rows, row)
  {
    hide ComesBefore, LexLeq, StableSort, Matching;
    var matching := Matching(rows);
    var sorted := StableSort(matching, NewerFirst);
    SortPermutes(matching, NewerFirst);
    NewerFirstIsPreorder();
    SortSorts(matching, NewerFirst);
    var r :| r in rows && OnDimension(r);
    MatchingExact(rows, r);
    assert sorted != [];
    row := sorted[0];
    assert row in multiset(matching);
    MatchingExact(rows, row);
    forall other | other in rows && OnDimension(other) && other != row
      ensures other.assertedAt < row.assertedAt
        || (other.assertedAt == row.assertedAt && ComesBefore(other.id, row.id))
    {
      MatchingExact(rows, other);
      assert other in multiset(sorted);
      var i :| 0 <= i < |sorted| && sorted[i] == other;
      assert NewerFirst(row, other);
      LexIsByteOrder(other.id, row.id);
    }
  }

  /** The same matching rows in any arrangement, among any other rows, give the same grant. */
  lemma GrantOrderFree(rows: seq<Attestation>, others: seq<Attestation>)
    requires UniqueIds(rows)
    requires forall row | OnDimension(row) :: row in rows <==> row in others
    ensures Grant(rows) == Grant(others)
  {
    hide ComesBefore, OnDimension, Grant;
    if exists r :: r in rows && OnDimension(r) {
      var row := NewestExists(rows);
      GrantIsNewest(rows, row);
      GrantIsNewest(others, row);
    } else {
      GrantAbsent(rows);
      GrantAbsent(others);
    }
  }

  // ---- The ladder -------------------------------------------------------------------------------------

  /** The configured timestamp, unless it is empty. */
  function EffectiveTimestamp(config: Option<string>): Option<string> {
    if config == Some("") then None else config
  }

  function ResolveConsent(grant: GrantState, config: Option<string>): Resolution {
    match grant
    case InForce(assertedAt) => CegGrant(assertedAt)
    case WithdrawnGrant(at) => Withdrawn(at)
    case Absent =>
      match EffectiveTimestamp(config)
      case Some(timestamp) => ConfigFallback(timestamp)
      case None => NoConsent
  }

  predicate Permits(resolution: Resolution) {
    resolution.CegGrant? || resolution.ConfigFallback?
  }

  /** What operator config alone resolves to. */
  function ByConfig(config: Option<string>): Resolution {
    if config.Some? && config.value != "" then ConfigFallback(config.value) else NoConsent
  }

  /**
   When the newest row withdraws, emission stops whatever the config says; when it grants, emission
   is permitted, as of the time of that row, whatever the config says; when it is of a kind the gate
   does not know, the config decides, exactly as if there were no row at all.
   */
  lemma NewestRowDecides(rows: seq<Attestation>, row: Attestation, config: Option<string>)
    requires Newest(rows, row)
    ensures ResolveConsent(Grant(rows), config) ==
      if row.kind in {"scores", "supersedes"} then CegGrant(row.assertedAt)
      else if row.kind in {"withdraws", "recants"} then Withdrawn(row.assertedAt)
      else ByConfig(config)
    ensures Permits(ResolveConsent(Grant(rows), config)) <==>
      || row.kind in {"scores", "supersedes"}
      || (row.kind !in {"withdraws", "recants"} && config.Some? && config.value != "")
  {
    hide Newest, Grant;
    GrantIsNewest(rows, row);
  }

  lemma NoRowConfigDecides(rows: seq<Attestation>, config: Option<string>)
    requires forall row | row in rows :: !OnDimension(row)
    ensures ResolveConsent(Grant(rows), config) == ByConfig(config)
    ensures Permits(ResolveConsent(Grant(rows), config)) <==> config.Some? && config.value != ""
  {
    hide Grant;
    GrantAbsent(rows);
  }

  /**
   A withdrawal does fall back to config when a newer row of an unknown kind follows it: one
   withdrawal, then one such row, and the configured timestamp permits emission again.
   */
  lemma UnknownKindRevivesConfig() returns (rows: seq<Attestation>, config: Option<string>)
    ensures |rows| == 2 && rows[0].kind == "withdraws" && OnDimension(rows[0])
    ensures ResolveConsent(Grant(rows[..1]), config).Withdrawn?
    ensures ResolveConsent(Grant(rows), config).ConfigFallback?
  {
    var envelope := Obj(map["dimension" := Str(CONSENT_DIMENSION)]);
    rows := [Attestation("a", "withdraws", 1, envelope), Attestation("b", "annotates", 2, envelope)];
    config := Some("2026-01-01T00:00:00Z");
    assert rows[..1] == [rows[0]];
    NewestRowDecides(rows, rows[1], config);
    GrantIsNewest(rows[..1], rows[0]);
  }
}
