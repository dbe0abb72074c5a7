/**
 What scrubbing does to a JSON value, read path by path: which leaves the model sees, what every leaf
 becomes, when a value is too deep, and when a trace is let through.
 */
module WalkLaws {
  import opened Wrappers
  import opened JsonValue
  import opened Backend
  import opened NerCache
  import opened Walker
  import opened Scrubber

  // ---- Paths ----------------------------------------------------------------------------------------

  datatype Step = Key(name: string) | Index(i: nat)

  /** What stands at the end of a path, if the path exists. */
  function At(v: Json, path: seq<Step>): Option<Json> {
    if path == [] then Some(v)
    else
      match path[0]
      case Key(k) => if v.Obj? && k in v.members then At(v.members[k], path[1..]) else None
      case Index(i) => if v.Arr? && i < |v.items| then At(v.items[i], path[1..]) else None
  }

  /** Some key on the path is one of the fields to scrub. */
  predicate Passes(rules: Rules, path: seq<Step>) {
    exists j :: 0 <= j < |path| && path[j].Key? && path[j].name in rules.scrubFields
  }

  lemma PassesCons(rules: Rules, path: seq<Step>)
    requires path != []
    ensures Passes(rules, path) <==> (path[0].Key? && path[0].name in rules.scrubFields) || Passes(rules, path[1..])
  {
    if Passes(rules, path) {
      var j :| 0 <= j < |path| && path[j].Key? && path[j].name in rules.scrubFields;
      if j > 0 { assert path[1..][j - 1] == path[j]; }
    }
    if Passes(rules, path[1..]) {
      var j :| 0 <= j < |path[1..]| && path[1..][j].Key? && path[1..][j].name in rules.scrubFields;
      assert path[j + 1] == path[1..][j];
    }
  }

  /** The leaf map keeps every path, and works below it in the scope the path has entered. */
  lemma {:induction false} MapAtPath(rules: Rules, f: Model, inScope: bool, v: Json, path: seq<Step>)
    ensures At(MapLeaves(rules, f, inScope, v), path) ==
      match At(v, path)
      case Some(below) => Some(MapLeaves(rules, f, inScope || Passes(rules, path), below))
      case None => None
    decreases |path|
  {
    hide Leaf, Passes;
    if path == [] {
      assert !Passes(rules, path) by { NothingPassed(rules, path); }
    } else {
      PassesCons(rules, path);
      match path[0]
      case Key(k) =>
        if v.Obj? && k in v.members {
          MapAtPath(rules, f, ChildScope(rules, inScope, k), v.members[k], path[1..]);
        }
      case Index(i) =>
        if v.Arr? && i < |v.items| {
          MapAtPath(rules, f, inScope, v.items[i], path[1..]);
        }
    }
  }

  lemma NothingPassed(rules: Rules, path: seq<Step>)
    requires path == []
    ensures !Passes(rules, path)
  {
  }

  // ---- Leaves ---------------------------------------------------------------------------------------

  /** At most 24 bytes, all ASCII, none an upper-case letter, tab, line feed, form feed, return or space. */
  predicate LooksInternal(s: string) {
    && |s| <= 24
    && forall k | 0 <= k < |s| ::
         s[k] as int < 128 && !(65 <= s[k] as int <= 90) && s[k] as int !in {9, 10, 12, 13, 32}
  }

  lemma SchemaLabelIff(s: string)
    ensures IsSchemaLabel(s) <==> LooksInternal(s)
  {
  }

  /** What a string at the end of `path` becomes. */
  function ScrubbedLeaf(rules: Rules, f: Model, path: seq<Step>, s: string): string {
    var seen := if Passes(rules, path) && !rules.blank(s) && !LooksInternal(s) then f(s) else s;
    if rules.blank(seen) then seen else rules.regex(seen)
  }

  /**
   A string is given to the model exactly when some key above it is a field to scrub, however far
   above, and it is neither blank nor a short lower-case label; everything that is not blank then
   gets the regex pass.  Other leaves, keys and array positions stay as they are.
   */
  lemma LeafAtPath(rules: Rules, f: Model, v: Json, path: seq<Step>)
    ensures At(MapLeaves(rules, f, false, v), path).Some? <==> At(v, path).Some?
    ensures At(v, path).Some? ==>
      match At(v, path).value
      case Str(s) => At(MapLeaves(rules, f, false, v), path) == Some(Str(ScrubbedLeaf(rules, f, path, s)))
      case Arr(items) =>
        var after := At(MapLeaves(rules, f, false, v), path).value;
        after.Arr? && |after.items| == |items|
      case Obj(m) =>
        var after := At(MapLeaves(rules, f, false, v), path).value;
        after.Obj? && after.members.Keys == m.Keys
      case scalar => At(MapLeaves(rules, f, false, v), path) == Some(scalar)
  {
    MapAtPath(rules, f, false, v, path);
    if At(v, path).Some? && At(v, path).value.Str? { SchemaLabelIff(At(v, path).value.s); }
  }

  /** Without the model every string that is not blank gets the regex pass, wherever it stands. */
  lemma RegexAtPath(rules: Rules, v: Json, path: seq<Step>, s: string)
    requires At(v, path) == Some(Str(s))
    ensures At(RegexLeaves(rules, v), path) == Some(Str(if rules.blank(s) then s else rules.regex(s)))
  {
    MapAtPath(NoFields(rules), t => t, false, v, path);
    assert !Passes(NoFields(rules), path);
  }

  // ---- Depth ----------------------------------------------------------------------------------------

  /** No path is longer than 30 steps. */
  ghost predicate AtMostThirtyDeep(v: Json) {
    forall path | At(v, path).Some? :: |path| <= 30
  }

  lemma {:induction false} ShallowPaths(v: Json, depth: nat, path: seq<Step>)
    requires Shallow(v, depth) && At(v, path).Some?
    ensures depth + |path| <= 30
    decreases |path|
  {
    if path != [] {
      match path[0]
      case Key(k) => ShallowPaths(v.members[k], depth + 1, path[1..]);
      case Index(i) => ShallowPaths(v.items[i], depth + 1, path[1..]);
    }
  }

  lemma {:induction false} DeepPath(v: Json, depth: nat) returns (path: seq<Step>)
    requires depth <= 31 && !Shallow(v, depth)
    ensures At(v, path).Some? && depth + |path| == 31
    decreases 31 - depth
  {
    if depth == 31 {
      path := [];
    } else {
      match v
      case Arr(items) =>
        var i :| 0 <= i < |items| && !Shallow(items[i], depth + 1);
        var below := DeepPath(items[i], depth + 1);
        path := [Index(i)] + below;
        assert path[1..] == below;
      case Obj(m) =>
        var k :| k in m && !Shallow(m[k], depth + 1);
        var below := DeepPath(m[k], depth + 1);
        path := [Key(k)] + below;
        assert path[1..] == below;
    }
  }

  lemma ShallowIff(v: Json)
    ensures Shallow(v, 0) <==> AtMostThirtyDeep(v)
  {
    if Shallow(v, 0) {
      forall path | At(v, path).Some? ensures |path| <= 30 { ShallowPaths(v, 0, path); }
    } else {
      var path := DeepPath(v, 0);
    }
  }

  // ---- Traces ---------------------------------------------------------------------------------------

  /** What a trace is turned into before its checks, below the generic level. */
  function Walked(policy: Policy, f: Model, level: TraceLevel, v: Json): Json {
    if level.FullTraces? then MapLeaves(policy.rules, f, false, v) else RegexLeaves(policy.rules, v)
  }

  /**
   A generic trace is let through as it is.  Any other is let through exactly when the model it needs
   is there, no path is too long, and its scrubbed form shows no historical year and no probe.
   */
  lemma LetThroughIff(policy: Policy, f: Model, configured: bool, level: TraceLevel, v: Json, out: Json)
    ensures TraceOutcome(policy, f, configured, level, v) == Success(out) <==>
      if level.Generic? then out == v
      else
        && (level.FullTraces? ==> configured)
        && AtMostThirtyDeep(v)
        && out == Walked(policy, f, level, v)
        && policy.residue(out) == 0 && !policy.probe(out)
  {
    ShallowIff(v);
  }

  /** The errors, in the order in which they take precedence. */
  lemma RefusalReads(policy: Policy, f: Model, configured: bool, level: TraceLevel, v: Json)
    requires !level.Generic?
    ensures level.FullTraces? && !configured ==>
      TraceOutcome(policy, f, configured, level, v) == Failure(NerNotConfigured)
    ensures (level.FullTraces? ==> configured) && !AtMostThirtyDeep(v) ==>
      TraceOutcome(policy, f, configured, level, v) == Failure(WalkerDepthExceeded(31))
    ensures (level.FullTraces? ==> configured) && AtMostThirtyDeep(v) ==>
      var out := Walked(policy, f, level, v);
      && (policy.residue(out) > 0 ==>
            TraceOutcome(policy, f, configured, level, v) == Failure(YearResidue(policy.residue(out))))
      && (policy.residue(out) == 0 && policy.probe(out) ==>
            TraceOutcome(policy, f, configured, level, v) == Failure(ProbeMatch))
  {
    ShallowIff(v);
  }

  /** The model of the walk is the backend's own: each string scrubbed alone, in windows of 192 tokens. */
  lemma ModelReads(ner: Ner, s: string)
    requires ner.Valid()
    ensures ModelOf(Some(ner))(s) == ScrubText(ner, s, 192)
  {
    hide ScrubText;
  }
}
