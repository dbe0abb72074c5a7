/**
 The two-pass JSON walker (scrubber/walker.rs): one pass collects the strings the NER model must
 see, one batched call scrubs them, and a second pass puts the results back in the same order.
 */
module Walker {
  import opened Wrappers
  import opened Ordering
  import opened JsonValue
  import opened NerCache

  const MAX_DEPTH: nat := 30

  /** The field list, and the two string operations the walker takes from elsewhere. */
  datatype Rules = Rules(
    scrubFields: set<string>,
    blank: string -> bool,     // `s.trim().is_empty()`
    regex: string -> string)   // the regex pass, `scrub_string`

  // ---- Which strings the model sees ----------------------------------------------------------

  predicate PlainChar(c: char) {
    && c as int < 0x80
    && !('A' <= c <= 'Z')
    && c != ' ' && c != '\t' && c != '\n' && c as int != 0x0C && c != '\r'
  }

  predicate IsSchemaLabel(s: string) {
    |s| <= 24 && forall k | 0 <= k < |s| :: PlainChar(s[k])
  }

  /** `looks_like_schema_label`: one scan with three flags, left early at a non-ASCII byte. */
  method LooksLikeSchemaLabel(s: string) returns (yes: bool)
    ensures yes == IsSchemaLabel(s)
  {
    if |s| > 24 {
      return false;
    }
    var allAscii, hasUpper, hasWs := true, false, false;
    var k := 0;
    while k < |s| && allAscii
      invariant k <= |s|
      invariant allAscii && !hasUpper && !hasWs <==> forall j | 0 <= j < k :: PlainChar(s[j])
      decreases |s| - k
    {
      var c := s[k];
      if c as int >= 0x80 {
        allAscii := false;
      } else {
        if 'A' <= c <= 'Z' { hasUpper := true; }
        if c == ' ' || c == '\t' || c == '\n' || c as int == 0x0C || c == '\r' { hasWs := true; }
      }
      k := k + 1;
    }
    yes := allAscii && !hasUpper && !hasWs;
  }

  predicate Eligible(rules: Rules, inScope: bool, s: string) {
    inScope && !rules.blank(s) && !IsSchemaLabel(s)
  }

  predicate ChildScope(rules: Rules, inScope: bool, key: string) {
    inScope || key in rules.scrubFields
  }

  // ---- The reference: one recursive map over the string leaves --------------------------------

  function Finish(rules: Rules, s: string): string {
    if rules.blank(s) then s else rules.regex(s)
  }

  function Leaf(rules: Rules, f: Model, inScope: bool, s: string): string {
    Finish(rules, if Eligible(rules, inScope, s) then f(s) else s)
  }

  /** Apply `Leaf` to every string, wherever it stands and in whatever order. */
  function MapLeaves(rules: Rules, f: Model, inScope: bool, v: Json): Json
    decreases v
  {
    match v
    case Str(s) => Str(Leaf(rules, f, inScope, s))
    case Arr(items) => Arr(seq(|items|, i requires 0 <= i < |items| => MapLeaves(rules, f, inScope, items[i])))
    case Obj(m) => Obj(map k | k in m :: MapLeaves(rules, f, ChildScope(rules, inScope, k), m[k]))
    case _ => v
  }

  /** No node lies deeper than the limit, when `v` itself stands at `depth`. */
  predicate Shallow(v: Json, depth: nat) {
    depth <= MAX_DEPTH &&
    match v
    case Arr(items) => forall i | 0 <= i < |items| :: Shallow(items[i], depth + 1)
    case Obj(m) => forall k | k in m :: Shallow(m[k], depth + 1)
    case _ => true
  }

  // ---- What the first pass collects -----------------------------------------------------------

  function Collected(rules: Rules, inScope: bool, v: Json): seq<string>
    decreases v, 1, 0
  {
    match v
    case Str(s) => if Eligible(rules, inScope, s) then [s] else []
    case Arr(items) => CollectedItems(rules, inScope, v, |items|)
    case Obj(m) => CollectedMembers(rules, inScope, v, SortedKeys(m.Keys), |SortedKeys(m.Keys)|)
    case _ => []
  }

  /** From the first `n` items of an array. */
  function CollectedItems(rules: Rules, inScope: bool, v: Json, n: nat): seq<string>
    requires v.Arr? && n <= |v.items|
    decreases v, 0, n
  {
    if n == 0 then []
    else CollectedItems(rules, inScope, v, n - 1) + Collected(rules, inScope, v.items[n - 1])
  }

  /** From the first `n` members of an object, in the order of `keys`. */
  function CollectedMembers(rules: Rules, inScope: bool, v: Json, keys: seq<string>, n: nat): seq<string>
    requires v.Obj? && (forall i | 0 <= i < |keys| :: keys[i] in v.members) && n <= |keys|
    decreases v, 0, n
  {
    if n == 0 then []
    else
      CollectedMembers(rules, inScope, v, keys, n - 1)
      + Collected(rules, ChildScope(rules, inScope, keys[n - 1]), v.members[keys[n - 1]])
  }

  // ---- What the second pass puts back ---------------------------------------------------------

  /** Rebuild `v`, pulling the replacement of each eligible string from the front of `outs`. */
  function Injected(rules: Rules, inScope: bool, v: Json, outs: seq<string>): (Json, seq<string>)
    decreases v, 1, 0
  {
    match v
    case Str(s) =>
      if Eligible(rules, inScope, s) && outs != [] then (Str(Finish(rules, outs[0])), outs[1..])
      else (Str(Finish(rules, s)), outs)
    case Arr(items) =>
      var (done, rest) := InjectedItems(rules, inScope, v, |items|, outs);
      (Arr(done), rest)
    case Obj(m) =>
      var keys := SortedKeys(m.Keys);
      var (done, rest) := InjectedMembers(rules, inScope, v, keys, |keys|, outs);
      (Obj(done), rest)
    case _ => (v, outs)
  }

  function InjectedItems(rules: Rules, inScope: bool, v: Json, n: nat, outs: seq<string>): (seq<Json>, seq<string>)
    requires v.Arr? && n <= |v.items|
    decreases v, 0, n
  {
    if n == 0 then ([], outs)
    else
      var (done, rest) := InjectedItems(rules, inScope, v, n - 1, outs);
      var (item, rest') := Injected(rules, inScope, v.items[n - 1], rest);
      (done + [item], rest')
  }

  function InjectedMembers(rules: Rules, inScope: bool, v: Json, keys: seq<string>, n: nat, outs: seq<string>)
    : (map<string, Json>, seq<string>)
    requires v.Obj? && (forall i | 0 <= i < |keys| :: keys[i] in v.members) && n <= |keys|
    decreases v, 0, n
  {
    if n == 0 then (map[], outs)
    else
      var (done, rest) := InjectedMembers(rules, inScope, v, keys, n - 1, outs);
      var (item, rest') := Injected(rules, ChildScope(rules, inScope, keys[n - 1]), v.members[keys[n - 1]], rest);
      (done[keys[n - 1] := item], rest')
  }

  // ---- The two passes fit together ------------------------------------------------------------

  lemma MapAllAppend(f: Model, a: seq<string>, b: seq<string>, tail: seq<string>)
    ensures MapAll(f, a + b) + tail == MapAll(f, a) + (MapAll(f, b) + tail)
  {
  }

  /**
   Fed the model's answers to the strings it collected, the second pass consumes exactly those
   answers, in order, and rebuilds what the order-free map over the leaves gives.
   */
  lemma {:induction false} InjectUndoesCollect(rules: Rules, f: Model, inScope: bool, v: Json, tail: seq<string>)
    ensures Injected(rules, inScope, v, MapAll(f, Collected(rules, inScope, v)) + tail)
         == (MapLeaves(rules, f, inScope, v), tail)
    decreases v, 1, 0
  {
    hide IsSchemaLabel, Finish;
    match v
    case Str(s) => InjectString(rules, f, inScope, s, tail);
    case Arr(items) => InjectArray(rules, f, inScope, v, tail);
    case Obj(m) => InjectObject(rules, f, inScope, v, tail);
    case _ =>
      assert MapAll(f, []) + tail == tail;
  }

  lemma {:induction false} InjectArray(rules: Rules, f: Model, inScope: bool, v: Json, tail: seq<string>)
    requires v.Arr?
    ensures Injected(rules, inScope, v, MapAll(f, Collected(rules, inScope, v)) + tail)
         == (MapLeaves(rules, f, inScope, v), tail)
    decreases v, 0, |v.items| + 1
  {
    hide InjectedItems, CollectedItems;
    InjectItems(rules, f, inScope, v, |v.items|, tail);
    var (done, _) := InjectedItems(rules, inScope, v, |v.items|,
      MapAll(f, CollectedItems(rules, inScope, v, |v.items|)) + tail);
    assert done == MapLeaves(rules, f, inScope, v).items;
  }

  lemma {:induction false} InjectObject(rules: Rules, f: Model, inScope: bool, v: Json, tail: seq<string>)
    requires v.Obj?
    ensures Injected(rules, inScope, v, MapAll(f, Collected(rules, inScope, v)) + tail)
         == (MapLeaves(rules, f, inScope, v), tail)
    decreases v, 0, |SortedKeys(v.members.Keys)| + 1
  {
    hide InjectedMembers, CollectedMembers, SortedKeys, ChildScope, MapLeaves;
    var keys := SortedKeys(v.members.Keys);
    SortedKeysExact(v.members.Keys);
    InjectMembers(rules, f, inScope, v, keys, |keys|, tail);
    var (done, _) := InjectedMembers(rules, inScope, v, keys, |keys|,
      MapAll(f, CollectedMembers(rules, inScope, v, keys, |keys|)) + tail);
    MappedObject(rules, f, inScope, v, done);
  }

  lemma MappedObject(rules: Rules, f: Model, inScope: bool, v: Json, done: map<string, Json>)
    requires v.Obj? && done.Keys == v.members.Keys
    requires forall k | k in done :: done[k] == MapLeaves(rules, f, ChildScope(rules, inScope, k), v.members[k])
    ensures MapLeaves(rules, f, inScope, v) == Obj(done)
  {
  }

  lemma InjectString(rules: Rules, f: Model, inScope: bool, s: string, tail: seq<string>)
    ensures Injected(rules, inScope, Str(s), MapAll(f, Collected(rules, inScope, Str(s))) + tail)
         == (MapLeaves(rules, f, inScope, Str(s)), tail)
  {
    hide IsSchemaLabel, Finish;
    if Eligible(rules, inScope, s) {
      assert MapAll(f, [s]) + tail == [f(s)] + tail;
    } else {
      assert MapAll(f, []) + tail == tail;
    }
  }

  lemma {:induction false} InjectItems(rules: Rules, f: Model, inScope: bool, v: Json, n: nat, tail: seq<string>)
    requires v.Arr? && n <= |v.items|
    ensures var (done, rest) := InjectedItems(rules, inScope, v, n,
      MapAll(f, CollectedItems(rules, inScope, v, n)) + tail);
      && rest == tail && |done| == n
      && forall i | 0 <= i < n :: done[i] == MapLeaves(rules, f, inScope, v.items[i])
    decreases v, 0, n
  {
    hide IsSchemaLabel, Finish, Eligible, MapLeaves, Injected;
    if n == 0 {
      assert MapAll(f, []) + tail == tail;
    } else {
      var last := Collected(rules, inScope, v.items[n - 1]);
      MapAllAppend(f, CollectedItems(rules, inScope, v, n - 1), last, tail);
      InjectItems(rules, f, inScope, v, n - 1, MapAll(f, last) + tail);
      InjectUndoesCollect(rules, f, inScope, v.items[n - 1], tail);
    }
  }

  lemma {:induction false} InjectMembers(
    rules: Rules, f: Model, inScope: bool, v: Json, keys: seq<string>, n: nat, tail: seq<string>)
    requires v.Obj? && (forall i | 0 <= i < |keys| :: keys[i] in v.members) && n <= |keys|
    requires forall i, j | 0 <= i < j < |keys| :: keys[i] != keys[j]
    ensures var (done, rest) := InjectedMembers(rules, inScope, v, keys, n,
      MapAll(f, CollectedMembers(rules, inScope, v, keys, n)) + tail);
      && rest == tail
      && (forall k :: k in done <==> exists i :: 0 <= i < n && keys[i] == k)
      && forall k | k in done :: k in v.members &&
          done[k] == MapLeaves(rules, f, ChildScope(rules, inScope, k), v.members[k])
    decreases v, 0, n
  {
    hide IsSchemaLabel, Finish, Eligible, ChildScope, MapLeaves, Injected;
    if n == 0 {
      assert MapAll(f, []) + tail == tail;
    } else {
      var scope := ChildScope(rules, inScope, keys[n - 1]);
      var last := Collected(rules, scope, v.members[keys[n - 1]]);
      MapAllAppend(f, CollectedMembers(rules, inScope, v, keys, n - 1), last, tail);
      InjectMembers(rules, f, inScope, v, keys, n - 1, MapAll(f, last) + tail);
      InjectUndoesCollect(rules, f, scope, v.members[keys[n - 1]], tail);
    }
  }

  lemma MemberKeys(m: map<string, Json>, keys: seq<string>)
    requires keys == SortedKeys(m.Keys)
    ensures forall k :: k in m <==> exists i :: 0 <= i < |keys| && keys[i] == k
  {
    SortedKeysExact(m.Keys);
  }

  lemma ShallowItems(v: Json, depth: nat)
    requires v.Arr? && depth <= MAX_DEPTH
    ensures Shallow(v, depth) <==> forall i | 0 <= i < |v.items| :: Shallow(v.items[i], depth + 1)
  {
  }

  lemma ShallowMembers(v: Json, keys: seq<string>, depth: nat)
    requires v.Obj? && keys == SortedKeys(v.members.Keys) && depth <= MAX_DEPTH
    ensures Shallow(v, depth) <==> forall i | 0 <= i < |keys| :: Shallow(v.members[keys[i]], depth + 1)
  {
    MemberKeys(v.members, keys);
  }

  // ---- The passes, imperatively ---------------------------------------------------------------

  function TooDeep(depth: nat): ScrubError {
    WalkerDepthExceeded(if depth > MAX_DEPTH then depth else MAX_DEPTH + 1)
  }

  /** The list of strings shared by the whole first pass. */
  class Collector {
    var inputs: seq<string>

    constructor (inputs: seq<string>)
      ensures this.inputs == inputs
    {
      this.inputs := inputs;
    }

    method Collect(rules: Rules, inScope: bool, v: Json, depth: nat) returns (r: Result<(), ScrubError>)
      modifies this
      ensures r == if Shallow(v, depth) then Success(()) else Failure(TooDeep(depth))
      ensures r.Success? ==> inputs == old(inputs) + Collected(rules, inScope, v)
      decreases v, 1
    {
      if depth > MAX_DEPTH {
        return Failure(WalkerDepthExceeded(depth));
      }
      hide IsSchemaLabel, SortedKeys;
      match v {
        case Str(s) =>
          var isLabel := LooksLikeSchemaLabel(s);
          if inScope && !rules.blank(s) && !isLabel {
            inputs := inputs + [s];
          }
          r := Success(());
        case Arr(_) =>
          r := CollectItems(rules, inScope, v, depth);
        case Obj(_) =>
          r := CollectMembers(rules, inScope, v, depth);
        case _ =>
          r := Success(());
      }
    }

    method CollectItems(rules: Rules, inScope: bool, v: Json, depth: nat) returns (r: Result<(), ScrubError>)
      requires v.Arr? && depth <= MAX_DEPTH
      modifies this
      ensures r == if Shallow(v, depth) then Success(()) else Failure(TooDeep(depth))
      ensures r.Success? ==> inputs == old(inputs) + CollectedItems(rules, inScope, v, |v.items|)
      decreases v, 0
    {
      hide Collected, Shallow;
      ShallowItems(v, depth);
      for i := 0 to |v.items|
        invariant inputs == old(inputs) + CollectedItems(rules, inScope, v, i)
        invariant forall j | 0 <= j < i :: Shallow(v.items[j], depth + 1)
      {
        var sub := Collect(rules, inScope, v.items[i], depth + 1);
        if sub.Failure? {
          return sub;
        }
      }
      r := Success(());
    }

    method CollectMembers(rules: Rules, inScope: bool, v: Json, depth: nat) returns (r: Result<(), ScrubError>)
      requires v.Obj? && depth <= MAX_DEPTH
      modifies this
      ensures r == if Shallow(v, depth) then Success(()) else Failure(TooDeep(depth))
      ensures r.Success? ==>
        inputs == old(inputs) + CollectedMembers(rules, inScope, v, SortedKeys(v.members.Keys),
        |SortedKeys(v.members.Keys)|)
      decreases v, 0
    {
      hide Collected, Shallow, SortedKeys;
      var keys := SortedKeys(v.members.Keys);
      ShallowMembers(v, keys, depth);
      for i := 0 to |keys|
        invariant inputs == old(inputs) + CollectedMembers(rules, inScope, v, keys, i)
        invariant forall j | 0 <= j < i :: Shallow(v.members[keys[j]], depth + 1)
      {
        var childInScope := inScope || keys[i] in rules.scrubFields;
        var sub := Collect(rules, childInScope, v.members[keys[i]], depth + 1);
        if sub.Failure? {
          return sub;
        }
      }
      r := Success(());
    }
  }

  /** The model's answers, pulled one by one during the second pass. */
  class Outputs {
    var rest: seq<string>

    constructor (outs: seq<string>)
      ensures rest == outs
    {
      rest := outs;
    }

    method Next() returns (next: Option<string>)
      modifies this
      ensures next == if old(rest) == [] then None else Some(old(rest)[0])
      ensures rest == if old(rest) == [] then [] else old(rest)[1..]
    {
      if rest == [] {
        return None;
      }
      next, rest := Some(rest[0]), rest[1..];
    }
  }

  method Inject(rules: Rules, inScope: bool, v: Json, outs: Outputs, depth: nat) returns (r: Result<Json, ScrubError>)
    modifies outs
    ensures r.Success? <==> Shallow(v, depth)
    ensures r.Failure? ==> r.error == TooDeep(depth)
    ensures r.Success? ==> (r.value, outs.rest) == Injected(rules, inScope, v, old(outs.rest))
    decreases v, 1
  {
    if depth > MAX_DEPTH {
      return Failure(WalkerDepthExceeded(depth));
    }
    hide IsSchemaLabel, SortedKeys;
    match v {
      case Str(s) =>
        var afterNer := s;
        var isLabel := LooksLikeSchemaLabel(s);
        if inScope && !rules.blank(s) && !isLabel {
          var next := outs.Next();
          afterNer := match next case Some(t) => t case None => s;
        }
        var scrubbed := if rules.blank(afterNer) then afterNer else rules.regex(afterNer);
        r := Success(Str(scrubbed));
      case Arr(_) =>
        r := InjectIntoArray(rules, inScope, v, outs, depth);
      case Obj(_) =>
        r := InjectIntoObject(rules, inScope, v, outs, depth);
      case _ =>
        r := Success(v);
    }
  }

  method InjectIntoArray(rules: Rules, inScope: bool, v: Json, outs: Outputs, depth: nat)
    returns (r: Result<Json, ScrubError>)
    requires v.Arr? && depth <= MAX_DEPTH
    modifies outs
    ensures r.Success? <==> Shallow(v, depth)
    ensures r.Failure? ==> r.error == TooDeep(depth)
    ensures r.Success? ==>
      r.value.Arr? && (r.value.items, outs.rest) == InjectedItems(rules, inScope, v, |v.items|, old(outs.rest))
    decreases v, 0
  {
    hide Injected, Shallow;
    ShallowItems(v, depth);
    var done := [];
    for i := 0 to |v.items|
      invariant (done, outs.rest) == InjectedItems(rules, inScope, v, i, old(outs.rest))
      invariant forall j | 0 <= j < i :: Shallow(v.items[j], depth + 1)
    {
      var sub := Inject(rules, inScope, v.items[i], outs, depth + 1);
      if sub.Failure? {
        return sub;
      }
      done := done + [sub.value];
    }
    r := Success(Arr(done));
  }

  method InjectIntoObject(rules: Rules, inScope: bool, v: Json, outs: Outputs, depth: nat)
    returns (r: Result<Json, ScrubError>)
    requires v.Obj? && depth <= MAX_DEPTH
    modifies outs
    ensures r.Success? <==> Shallow(v, depth)
    ensures r.Failure? ==> r.error == TooDeep(depth)
    ensures r.Success? ==>
      var keys := SortedKeys(v.members.Keys);
      r.value.Obj? && (r.value.members, outs.rest) == InjectedMembers(rules, inScope, v, keys, |keys|, old(outs.rest))
    decreases v, 0
  {
    hide Injected, Shallow, SortedKeys;
    var keys := SortedKeys(v.members.Keys);
    ShallowMembers(v, keys, depth);
    var done: map<string, Json> := map[];
    for i := 0 to |keys|
      invariant (done, outs.rest) == InjectedMembers(rules, inScope, v, keys, i, old(outs.rest))
      invariant forall j | 0 <= j < i :: Shallow(v.members[keys[j]], depth + 1)
    {
      var childInScope := inScope || keys[i] in rules.scrubFields;
      var sub := Inject(rules, childInScope, v.members[keys[i]], outs, depth + 1);
      if sub.Failure? {
        return sub;
      }
      done := done[keys[i] := sub.value];
    }
    r := Success(Obj(done));
  }

  // ---- The fast path without NER --------------------------------------------------------------

  function NoFields(rules: Rules): Rules {
    rules.(scrubFields := {})
  }

  /** Every string gets the regex pass; it is the leaf map with nothing in scope. */
  function RegexLeaves(rules: Rules, v: Json): Json {
    MapLeaves(NoFields(rules), s => s, false, v)
  }

  lemma RegexString(rules: Rules, s: string)
    ensures RegexLeaves(rules, Str(s)) == Str(Finish(rules, s))
  {
  }

  lemma RegexItems(rules: Rules, v: Json, done: seq<Json>)
    requires v.Arr? && |done| == |v.items|
    requires forall i | 0 <= i < |done| :: done[i] == RegexLeaves(rules, v.items[i])
    ensures RegexLeaves(rules, v) == Arr(done)
  {
  }

  lemma RegexMembers(rules: Rules, v: Json, done: map<string, Json>)
    requires v.Obj? && done.Keys == v.members.Keys
    requires forall k | k in done :: done[k] == RegexLeaves(rules, v.members[k])
    ensures RegexLeaves(rules, v) == Obj(done)
  {
  }

  method WalkRegexOnly(rules: Rules, v: Json, depth: nat) returns (r: Result<Json, ScrubError>)
    ensures r == if Shallow(v, depth) then Success(RegexLeaves(rules, v)) else Failure(TooDeep(depth))
    decreases v
  {
    if depth > MAX_DEPTH {
      return Failure(WalkerDepthExceeded(depth));
    }
    hide RegexLeaves, SortedKeys;
    match v {
      case Str(s) =>
        RegexString(rules, s);
        if rules.blank(s) {
          return Success(v);
        }
        r := Success(Str(rules.regex(s)));
      case Arr(items) =>
        ShallowItems(v, depth);
        var done := [];
        for i := 0 to |items|
          invariant |done| == i
          invariant forall j | 0 <= j < i :: Shallow(items[j], depth + 1) && done[j] == RegexLeaves(rules, items[j])
        {
          var sub := WalkRegexOnly(rules, items[i], depth + 1);
          if sub.Failure? {
            return sub;
          }
          done := done + [sub.value];
        }
        RegexItems(rules, v, done);
        r := Success(Arr(done));
      case Obj(m) =>
        var keys := SortedKeys(m.Keys);
        ShallowMembers(v, keys, depth);
        var done: map<string, Json> := map[];
        for i := 0 to |keys|
          invariant forall j | 0 <= j < i :: keys[j] in done && Shallow(m[keys[j]], depth + 1)
          invariant forall k | k in done :: k in m && done[k] == RegexLeaves(rules, m[k])
        {
          var sub := WalkRegexOnly(rules, m[keys[i]], depth + 1);
          if sub.Failure? {
            return sub;
          }
          done := done[keys[i] := sub.value];
        }
        MemberKeys(m, keys);
        assert done.Keys == m.Keys;
        RegexMembers(rules, v, done);
        r := Success(Obj(done));
      case _ =>
        RegexScalar(rules, v);
        r := Success(v);
    }
  }

  lemma RegexScalar(rules: Rules, v: Json)
    requires !v.Str? && !v.Arr? && !v.Obj?
    ensures RegexLeaves(rules, v) == v
  {
  }
}
