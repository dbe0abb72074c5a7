/**
 The retention planner and its drain loop (retention/eviction.rs).  Timestamps count nanoseconds;
 the trace store is a set of rows, and its delete primitive removes some rows older than a cutoff,
 as many as it finds up to a batch size.
 */
module Eviction {
  import opened Wrappers

  const NANOS_PER_DAY: int := 86_400_000_000_000
  const MAX_U64: int := 0xFFFF_FFFF_FFFF_FFFF
  const DEFAULT_TRACE_BATCH_SIZE: nat := 1000

  datatype Row = Row(id: nat, ts: int)

  datatype TableUsage = TableUsage(oldest: Option<int>, newest: Option<int>)

  datatype StorageSummary = StorageSummary(traceEvents: TableUsage, auditLog: TableUsage, totalDiskBytes: nat)

  datatype RetentionPolicy = RetentionPolicy(
    maxDiskGb: Option<nat>, maxAgeDays: Option<nat>, auditLogMaxAgeDays: Option<nat>)

  datatype Plan = Plan(deleteTracesOlderThan: Option<int>, traceBatchSize: nat, archiveAuditRange: Option<(int, int)>)

  // ---- The plan -------------------------------------------------------------------------------------------

  function AgeCutoff(policy: RetentionPolicy, now: int): Option<int> {
    match policy.maxAgeDays
    case Some(days) => Some(now - days * NANOS_PER_DAY)
    case None => None
  }

  function CapBytes(gb: nat): int {
    if gb * 1_000_000_000 > MAX_U64 then MAX_U64 else gb * 1_000_000_000
  }

  /** The store has reached nine tenths of its cap. */
  predicate DiskPressured(summary: StorageSummary, policy: RetentionPolicy) {
    policy.maxDiskGb.Some? && summary.totalDiskBytes as real >= CapBytes(policy.maxDiskGb.value) as real * 0.9
  }

  function Midpoint(oldest: int, newest: int): int {
    oldest + (newest - oldest) / 2
  }

  function DiskCutoff(summary: StorageSummary, policy: RetentionPolicy): Option<int> {
    if !DiskPressured(summary, policy) || summary.traceEvents.oldest.None? || summary.traceEvents.newest.None? then None
    else Some(Midpoint(summary.traceEvents.oldest.value, summary.traceEvents.newest.value))
  }

  /** The later of two optional cutoffs. */
  function Later(a: Option<int>, b: Option<int>): Option<int> {
    match (a, b)
    case (Some(x), Some(y)) => Some(if x >= y then x else y)
    case (Some(_), None) => a
    case (None, _) => b
  }

  function AuditRange(summary: StorageSummary, policy: RetentionPolicy, now: int): Option<(int, int)> {
    match (policy.auditLogMaxAgeDays, summary.auditLog.oldest)
    case (Some(days), Some(oldest)) =>
      if oldest < now - days * NANOS_PER_DAY then Some((oldest, now - days * NANOS_PER_DAY)) else None
    case _ => None
  }

  method PlanEviction(summary: StorageSummary, policy: RetentionPolicy, now: int) returns (plan: Plan)
    ensures plan.deleteTracesOlderThan == Later(AgeCutoff(policy, now), DiskCutoff(summary, policy))
    ensures plan.traceBatchSize == 1000
    ensures plan.archiveAuditRange == AuditRange(summary, policy, now)
    ensures plan.archiveAuditRange.Some? <==>
      && policy.auditLogMaxAgeDays.Some? && summary.auditLog.oldest.Some?
      && now - summary.auditLog.oldest.value > policy.auditLogMaxAgeDays.value * (24 * 60 * 60 * 1_000_000_000)
    ensures var range := plan.archiveAuditRange;
      range.Some? ==>
        && Some(range.value.0) == summary.auditLog.oldest
        && range.value.1 == now - policy.auditLogMaxAgeDays.value * (24 * 60 * 60 * 1_000_000_000)
        && range.value.0 < range.value.1 <= now
  {
    var deleteTracesOlderThan: Option<int> := None;
    if policy.maxAgeDays.Some? {
      deleteTracesOlderThan := Some(now - policy.maxAgeDays.value * NANOS_PER_DAY);
    }
    if policy.maxDiskGb.Some? {
      var capBytes := CapBytes(policy.maxDiskGb.value) as real;
      if summary.totalDiskBytes as real >= capBytes * 0.9 {
        if summary.traceEvents.oldest.Some? && summary.traceEvents.newest.Some? {
          var oldest, newest := summary.traceEvents.oldest.value, summary.traceEvents.newest.value;
          var midpoint := oldest + (newest - oldest) / 2;
          match deleteTracesOlderThan {
            case Some(existing) =>
              deleteTracesOlderThan := Some(if existing >= midpoint then existing else midpoint);
            case None =>
              deleteTracesOlderThan := Some(midpoint);
          }
        }
      }
    }
    plan := Plan(deleteTracesOlderThan, DEFAULT_TRACE_BATCH_SIZE, AuditRange(summary, policy, now));
  }

  // ---- The store ------------------------------------------------------------------------------------------

  function Eligible(rows: set<Row>, cutoff: int): set<Row> {
    set r | r in rows && r.ts < cutoff
  }

  function Retained(rows: set<Row>, cutoff: int): set<Row> {
    set r | r in rows && r.ts >= cutoff
  }

  function Min(a: nat, b: nat): nat {
    if a <= b then a else b
  }

  /** One call of the delete primitive: as many eligible rows go as the batch allows, and no other. */
  ghost predicate Round(before: set<Row>, after: set<Row>, cutoff: int, batch: nat, deleted: nat) {
    && after <= before
    && Retained(after, cutoff) == Retained(before, cutoff)
    && deleted == Min(batch, |Eligible(before, cutoff)|)
    && |after| + deleted == |before|
    && |Eligible(after, cutoff)| + deleted == |Eligible(before, cutoff)|
  }

  class Engine {
    var rows: set<Row>

    constructor (rows: set<Row>)
      ensures this.rows == rows
    {
      this.rows := rows;
    }

    /** Persist's primitive: which eligible rows go first is its own business. */
    method DeleteTracesOlderThan(cutoff: int, batch: nat) returns (deleted: nat)
      modifies this
      ensures Round(old(rows), rows, cutoff, batch, deleted)
    {
      deleted := 0;
      while deleted < batch && exists r :: r in rows && r.ts < cutoff
        invariant deleted <= batch && rows <= old(rows)
        invariant Retained(rows, cutoff) == Retained(old(rows), cutoff)
        invariant |rows| + deleted == |old(rows)|
        invariant |Eligible(rows, cutoff)| + deleted == |Eligible(old(rows), cutoff)|
        decreases batch - deleted
      {
        var r :| r in rows && r.ts < cutoff;
        assert Eligible(rows - {r}, cutoff) == Eligible(rows, cutoff) - {r};
        rows := rows - {r};
        deleted := deleted + 1;
      }
      if deleted < batch {
        assert Eligible(rows, cutoff) == {};
      }
    }

    /** What `storage_summary` reports of the trace table. */
    method TraceUsage() returns (usage: TableUsage)
      ensures Describes(usage, rows)
    {
      if rows == {} {
        return TableUsage(None, None);
      }
      var first :| first in rows;
      var oldest, newest, rest := first.ts, first.ts, rows - {first};
      while rest != {}
        invariant rest <= rows
        invariant exists r :: r in rows && r.ts == oldest
        invariant exists r :: r in rows && r.ts == newest
        invariant forall r | r in rows - rest :: oldest <= r.ts <= newest
        decreases |rest|
      {
        var r :| r in rest;
        oldest := if r.ts < oldest then r.ts else oldest;
        newest := if r.ts > newest then r.ts else newest;
        rest := rest - {r};
      }
      usage := TableUsage(Some(oldest), Some(newest));
    }
  }

  /** `usage` carries the extreme timestamps of the table, or none when it is empty. */
  ghost predicate Describes(usage: TableUsage, rows: set<Row>) {
    && (usage.oldest.Some? <==> rows != {}) && (usage.newest.Some? <==> rows != {})
    && (rows != {} ==>
      && (exists r :: r in rows && r.ts == usage.oldest.value)
      && (exists r :: r in rows && r.ts == usage.newest.value)
      && (forall r | r in rows :: usage.oldest.value <= r.ts <= usage.newest.value))
  }

  /** The rows a plan leaves. */
  function Survivors(rows: set<Row>, cutoff: Option<int>): set<Row> {
    match cutoff
    case Some(t) => Retained(rows, t)
    case None => rows
  }

  /** The drain loop: delete batch after batch until one comes back short. */
  method ExecutePlan(engine: Engine, plan: Plan) returns (evictedTraces: nat)
    requires plan.traceBatchSize > 0
    modifies engine
    ensures engine.rows == Survivors(old(engine.rows), plan.deleteTracesOlderThan)
    ensures evictedTraces == |old(engine.rows)| - |engine.rows|
  {
    evictedTraces := 0;
    if plan.deleteTracesOlderThan.Some? {
      var cutoff := plan.deleteTracesOlderThan.value;
      while true
        invariant engine.rows <= old(engine.rows)
        invariant Retained(engine.rows, cutoff) == Retained(old(engine.rows), cutoff)
        invariant |engine.rows| + evictedTraces == |old(engine.rows)|
        decreases |engine.rows|
      {
        var deleted := engine.DeleteTracesOlderThan(cutoff, plan.traceBatchSize);
        evictedTraces := evictedTraces + deleted;
        if deleted < plan.traceBatchSize {
          break;
        }
      }
      assert Eligible(engine.rows, cutoff) == {};
      assert forall r | r in engine.rows :: r !in Eligible(engine.rows, cutoff);
      assert engine.rows == Retained(engine.rows, cutoff);
    }
  }

  // ---- When the drain loop ends -----------------------------------------------------------------------------

  /** The stores met by a loop that has not ended yet: every batch so far came back full. */
  ghost predicate Draining(stores: seq<set<Row>>, cutoff: int, batch: nat) {
    stores != [] && forall i | 0 < i < |stores| :: Round(stores[i - 1], stores[i], cutoff, batch, batch)
  }

  ghost predicate EndsWithin(rows: set<Row>, cutoff: int, batch: nat, bound: nat) {
    forall stores | Draining(stores, cutoff, batch) && stores[0] == rows :: |stores| <= bound
  }

  lemma {:induction false} RoundsRemove(stores: seq<set<Row>>, cutoff: int, batch: nat)
    requires Draining(stores, cutoff, batch)
    ensures |Eligible(stores[|stores| - 1], cutoff)| + (|stores| - 1) * batch == |Eligible(stores[0], cutoff)|
  {
    hide Eligible;
    var n := |stores| - 1;
    if n > 0 {
      RoundsRemove(stores[..n], cutoff, batch);
      assert Round(stores[n - 1], stores[n], cutoff, batch, batch);
      assert n * batch == (n - 1) * batch + batch;
    }
  }

  /** From any store and for any cutoff, the loop ends exactly when the batch size is positive. */
  lemma DrainEndsIffPositive(rows: set<Row>, cutoff: int, batch: nat)
    ensures (exists bound: nat :: EndsWithin(rows, cutoff, batch, bound)) <==> batch > 0
  {
    if batch > 0 {
      var bound := |Eligible(rows, cutoff)| + 1;
      forall stores | Draining(stores, cutoff, batch) && stores[0] == rows ensures |stores| <= bound {
        RoundsRemove(stores, cutoff, batch);
        AtLeastEach(|stores| - 1, batch);
      }
      assert EndsWithin(rows, cutoff, batch, bound);
    } else {
      forall bound: nat ensures !EndsWithin(rows, cutoff, batch, bound) {
        var stores := seq(bound + 1, _ => rows);
        assert Draining(stores, cutoff, batch) && stores[0] == rows;
      }
    }
  }

  lemma AtLeastEach(n: nat, batch: nat)
    requires batch > 0
    ensures n <= n * batch
  {
  }

  method EvictPerRetentionPolicy(
    engine: Engine, auditLog: TableUsage, totalDiskBytes: nat, policy: RetentionPolicy, now: int)
    returns (evictedTraces: nat)
    modifies engine
    ensures exists usage ::
      && Describes(usage, old(engine.rows))
      && engine.rows == AfterPass(old(engine.rows), StorageSummary(usage, auditLog, totalDiskBytes), policy, now)
    ensures evictedTraces == |old(engine.rows)| - |engine.rows|
  {
    var usage := engine.TraceUsage();
    var plan := PlanEviction(StorageSummary(usage, auditLog, totalDiskBytes), policy, now);
    evictedTraces := ExecutePlan(engine, plan);
  }

  /** The store one eviction pass leaves behind. */
  function AfterPass(rows: set<Row>, summary: StorageSummary, policy: RetentionPolicy, now: int): set<Row> {
    Survivors(rows, Later(AgeCutoff(policy, now), DiskCutoff(summary, policy)))
  }

  // ---- What a pass guarantees -------------------------------------------------------------------------------

  /** A pass enforces both limits, each exactly as it would alone: pressure tightens and never loosens. */
  lemma PassIsBothLimits(rows: set<Row>, summary: StorageSummary, policy: RetentionPolicy, now: int)
    ensures AfterPass(rows, summary, policy, now)
         == Survivors(Survivors(rows, AgeCutoff(policy, now)), DiskCutoff(summary, policy))
         == Survivors(rows, AgeCutoff(policy, now)) * Survivors(rows, DiskCutoff(summary, policy))
  {
  }

  /** The disk presses from nine tenths of the cap on, a gigabyte being 10^9 bytes and the cap at most 2^64 - 1. */
  lemma PressedIff(summary: StorageSummary, policy: RetentionPolicy)
    ensures DiskPressured(summary, policy) <==>
      && policy.maxDiskGb.Some?
      && var bytes := policy.maxDiskGb.value * 1_000_000_000;
        10 * summary.totalDiskBytes >= 9 * (if bytes <= 18446744073709551615 then bytes else 18446744073709551615)
  {
    if policy.maxDiskGb.Some? {
      var cap := CapBytes(policy.maxDiskGb.value);
      assert (10 * summary.totalDiskBytes) as real == 10.0 * summary.totalDiskBytes as real;
      assert (9 * cap) as real == 9.0 * cap as real;
    }
  }

  /** A row survives exactly when it is young enough and, under pressure, in the newer half. */
  lemma SurvivesIff(rows: set<Row>, summary: StorageSummary, policy: RetentionPolicy, now: int, r: Row)
    requires r in rows && Describes(summary.traceEvents, rows)
    ensures r in AfterPass(rows, summary, policy, now) <==>
      && (policy.maxAgeDays.Some? ==> now - r.ts <= policy.maxAgeDays.value * (24 * 60 * 60 * 1_000_000_000))
      && (DiskPressured(summary, policy) ==>
           2 * (r.ts - summary.traceEvents.oldest.value) + 1
             >= summary.traceEvents.newest.value - summary.traceEvents.oldest.value)
  {
  }

  /** The time window of a table; an empty one has none. */
  ghost predicate WindowAtMost(rows: set<Row>, width: int) {
    forall r, s | r in rows && s in rows :: s.ts - r.ts <= width
  }

  /**
   A pass under disk pressure alone keeps every newest row, halves the window (rounding up), and
   removes a row exactly when the window spans at least two nanoseconds.
   */
  lemma DiskPassHalves(rows: set<Row>, summary: StorageSummary, policy: RetentionPolicy, now: int)
    requires rows != {} && Describes(summary.traceEvents, rows)
    requires DiskPressured(summary, policy) && policy.maxAgeDays.None?
    ensures var after := AfterPass(rows, summary, policy, now);
      var window := summary.traceEvents.newest.value - summary.traceEvents.oldest.value;
      && (forall r | r in rows && r.ts == summary.traceEvents.newest.value :: r in after)
      && WindowAtMost(after, (window + 1) / 2)
      && (after != rows <==> window >= 2)
  {
  }

  /** There is a disk cutoff whenever the disk presses and a row is there, even if only one: it is kept. */
  lemma CutoffIff(rows: set<Row>, summary: StorageSummary, policy: RetentionPolicy, now: int)
    requires Describes(summary.traceEvents, rows)
    ensures DiskCutoff(summary, policy).None? <==> !DiskPressured(summary, policy) || rows == {}
    ensures policy.maxAgeDays.None? && (forall r, s | r in rows && s in rows :: r == s) ==>
      AfterPass(rows, summary, policy, now) == rows
  {
  }

  // ---- Repeated passes ----------------------------------------------------------------------------------------

  /** `passes` lists the stores left by successive passes under unrelieved disk pressure. */
  ghost predicate DiskPasses(passes: seq<set<Row>>) {
    forall i | 0 < i < |passes| :: DiskPass(passes[i - 1], passes[i])
  }

  /** A pass over `before` with a summary that describes it, a pressed disk and no age limit. */
  ghost predicate DiskPass(before: set<Row>, after: set<Row>) {
    exists summary: StorageSummary, policy: RetentionPolicy, now: int ::
      && Describes(summary.traceEvents, before) && DiskPressured(summary, policy) && policy.maxAgeDays.None?
      && after == AfterPass(before, summary, policy, now)
  }

  /** One pass: the newest rows stay, the window halves, and a window below two is left alone. */
  lemma DiskPassStep(before: set<Row>, after: set<Row>, newest: Row, width: nat)
    requires DiskPass(before, after) && WindowAtMost(before, width)
    requires newest in before && forall r | r in before :: r.ts <= newest.ts
    ensures after <= before && newest in after
    ensures WindowAtMost(after, (width + 1) / 2)
    ensures width <= 1 ==> after == before
  {
    var summary: StorageSummary, policy: RetentionPolicy, now: int :|
      && Describes(summary.traceEvents, before) && DiskPressured(summary, policy) && policy.maxAgeDays.None?
      && after == AfterPass(before, summary, policy, now);
    DiskPassHalves(before, summary, policy, now);
    hide DiskPressured;
    var oldest :| oldest in before && oldest.ts == summary.traceEvents.oldest.value;
    assert newest.ts == summary.traceEvents.newest.value && newest.ts - oldest.ts <= width;
  }

  /** `width` halved `k` times, rounding up. */
  function HalvedUp(width: nat, k: nat): nat {
    if k == 0 then width else (HalvedUp(width, k - 1) + 1) / 2
  }

  function PowerOfTwo(k: nat): (p: nat)
    ensures p > 0
  {
    if k == 0 then 1 else 2 * PowerOfTwo(k - 1)
  }

  /** Halving `k` times, rounding up, is dividing by `2^k`, rounding up. */
  lemma {:induction false} HalvingBound(width: nat, k: nat)
    ensures width <= HalvedUp(width, k) * PowerOfTwo(k) < width + PowerOfTwo(k)
  {
    if k > 0 {
      HalvingBound(width, k - 1);
      HalvingStep(HalvedUp(width, k - 1), PowerOfTwo(k - 1), HalvedUp(width, k), PowerOfTwo(k), width);
    }
  }

  lemma HalvingStep(before: nat, p: nat, after: nat, p': nat, width: nat)
    requires width <= before * p < width + p && after == (before + 1) / 2 && p' == 2 * p
    ensures width <= after * p' < width + p'
  {
    var twice := 2 * after;
    assert before <= twice <= before + 1;
    assert after * p' == twice * p;
    assert before * p <= twice * p <= (before + 1) * p;
    assert (before + 1) * p == before * p + p;
  }

  lemma HalvingReachesOne(width: nat, k: nat)
    requires width <= PowerOfTwo(k)
    ensures HalvedUp(width, k) <= 1
  {
    hide HalvedUp, PowerOfTwo;
    HalvingBound(width, k);
    AtMostOne(HalvedUp(width, k), PowerOfTwo(k));
  }

  lemma AtMostOne(h: nat, p: nat)
    requires h * p < 2 * p
    ensures h <= 1
  {
  }

  /**
   However often disk pressure evicts from a store nobody writes to, its newest row stays and the
   window keeps halving, until it spans at most a nanosecond and the store no longer changes.
   */
  lemma {:induction false} PressureStalls(passes: seq<set<Row>>, newest: Row, width: nat, k: nat)
    requires DiskPasses(passes) && k < |passes|
    requires newest in passes[0] && (forall r | r in passes[0] :: r.ts <= newest.ts) && WindowAtMost(passes[0], width)
    ensures newest in passes[k] && passes[k] <= passes[0]
    ensures WindowAtMost(passes[k], HalvedUp(width, k))
    ensures 0 < k && width <= PowerOfTwo(k - 1) ==> passes[k] == passes[k - 1]
  {
    if k > 0 {
      PressureStalls(passes, newest, width, k - 1);
      if width <= PowerOfTwo(k - 1) { HalvingReachesOne(width, k - 1); }
      assert DiskPass(passes[k - 1], passes[k]);
      DiskPassStep(passes[k - 1], passes[k], newest, HalvedUp(width, k - 1));
    }
  }
}
