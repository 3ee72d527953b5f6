/**
 Running the code emitted for an inferred query: numbering placeholders, collecting arguments, and
 what the finished OR query means next to the AND conditions.
 */
module InferredSql {
  import opened InferredOr
  import opened InferredNames
  import opened Wrappers

  /** The request's parameters by name, the LIKE pattern of an escaped value with a wildcard before or
      after it, and the meaning of a condition on a row, given its column, operator and values. */
  datatype World<!R, !V> = World(
    env: string -> Arg<V>,
    like: (bool, V, bool) -> V,
    test: (string, Op, seq<V>, R) -> bool)

  function Elements<V>(a: Arg<V>): seq<V> {
    match a case One(v) => [v] case Many(vs) => vs
  }

  /** The values a condition is evaluated with: two for a range, the elements of a list, a pattern. */
  function ValuesOf<R, V>(w: World<R, V>, c: Written): seq<V> {
    if TakesNothing(c.op) || |c.exprs| == 0 then []
    else if c.op.Between? then (if |c.exprs| < 2 then [] else Elements(w.env(c.exprs[0])) + Elements(w.env(c.exprs[1])))
    else if IsSet(c.op) then Elements(w.env(c.exprs[0]))
    else if IsMatch(c.op) then Wrapped(w, c.op, Elements(w.env(c.exprs[0])))
    else Elements(w.env(c.exprs[0]))
  }

  function Wrapped<R, V>(w: World<R, V>, op: Op, vs: seq<V>): (r: seq<V>)
    ensures |r| == |vs|
  {
    seq(|vs|, i requires 0 <= i < |vs| => PatternOf(w, op, vs[i]))
  }

  /** What a match operator compares with: wildcards around an escaped text, or the text as it is. */
  function PatternOf<R, V>(w: World<R, V>, op: Op, v: V): V {
    match op
    case Containing => w.like(true, v, true)
    case NotContaining => w.like(true, v, true)
    case StartsWith => w.like(false, v, true)
    case EndsWith => w.like(true, v, false)
    case _ => v
  }

  /** The consecutive numbers from `from` on. */
  function Numbers(from: nat, n: nat): (r: seq<nat>)
    ensures |r| == n && forall i :: 0 <= i < n ==> r[i] == from + i
  {
    seq(n, i requires 0 <= i < n => from + i)
  }

  /** The arguments of a group's conditions, in order. */
  function ArgsOf<R, V>(w: World<R, V>, cs: seq<Written>): seq<V>
    decreases |cs|
  {
    if cs == [] then [] else ArgsOf(w, cs[..|cs| - 1]) + ValuesOf(w, cs[|cs| - 1])
  }

  function AllArgs<R, V>(w: World<R, V>, program: seq<seq<Written>>): seq<V>
    decreases |program|
  {
    if program == [] then [] else AllArgs(w, program[..|program| - 1]) + ArgsOf(w, program[|program| - 1])
  }

  // ---------------------------------------------------------------- the emitted code

  /** The clause has the expressions of its operator and their parameters have its Go type: a slice for
      a set, a single value otherwise. */
  predicate Typed<R, V>(w: World<R, V>, c: Written) {
    if TakesNothing(c.op) then c.exprs == []
    else if c.op.Between? then |c.exprs| == 2 && w.env(c.exprs[0]).One? && w.env(c.exprs[1]).One?
    else if IsSet(c.op) then |c.exprs| == 1 && w.env(c.exprs[0]).Many?
    else |c.exprs| == 1 && w.env(c.exprs[0]).One?
  }

  predicate AllTyped<R, V>(w: World<R, V>, cs: seq<Written>) {
    forall k :: 0 <= k < |cs| ==> Typed(w, cs[k])
  }

  /** IN and NOT IN: one loop writes the placeholders, another appends the elements, and the index
      moves by the length of the slice. */
  method RunSet<V>(field: string, op: Op, slice: seq<V>, argIdx: nat, orArgs: seq<V>) returns (part: Part, next: nat, args: seq<V>)
    ensures part == Part(field, op, Numbers(argIdx, |slice|)) && args == orArgs + slice && next == argIdx + |slice|
  {
    var ph := new nat[|slice|];
    for i := 0 to |slice|
      invariant forall j :: 0 <= j < i ==> ph[j] == argIdx + j
    {
      ph[i] := argIdx + i;
    }
    part := Part(field, op, ph[..]);
    args := orArgs;
    for i := 0 to |slice|
      invariant args == orArgs + slice[..i]
    {
      assert slice[..i + 1] == slice[..i] + [slice[i]];
      args := args + [slice[i]];
    }
    assert slice[..|slice|] == slice;
    next := argIdx + |slice|;
  }

  /** The operators that compare with a pattern: one placeholder, and the argument the operator makes of the text. */
  method RunLike<R, V>(w: World<R, V>, c: Written, argIdx: nat, orArgs: seq<V>) returns (part: Part, next: nat, args: seq<V>)
    requires argIdx == |orArgs| + 1 && IsMatch(c.op) && Typed(w, c)
    ensures part == Part(c.field, c.op, Numbers(argIdx, |ValuesOf(w, c)|)) && args == orArgs + ValuesOf(w, c) && next == |args| + 1
  {
    var text := w.env(c.exprs[0]).value;
    part := Part(c.field, c.op, [argIdx]);
    match c.op {
      case Containing => args := orArgs + [w.like(true, text, true)];
      case NotContaining => args := orArgs + [w.like(true, text, true)];
      case StartsWith => args := orArgs + [w.like(false, text, true)];
      case EndsWith => args := orArgs + [w.like(true, text, false)];
      case _ => args := orArgs + [text];
    }
    next := argIdx + 1;
    assert ValuesOf(w, c) == [PatternOf(w, c.op, text)];
  }

  /** The statements emitted for one clause: each kind of operator has its own text, its own arguments
      and its own step of `argIdx`. They agree, and with the number of arguments, in every case. */
  method RunClause<R, V>(w: World<R, V>, c: Written, start: nat, orArgs: seq<V>) returns (part: Part, argIdx: nat, args: seq<V>)
    requires start == |orArgs| + 1 && Typed(w, c)
    ensures argIdx == |args| + 1
    ensures args == orArgs + ValuesOf(w, c)
    ensures part == Part(c.field, c.op, Numbers(start, |ValuesOf(w, c)|))
  {
    argIdx, args := start, orArgs;
    if TakesNothing(c.op) {
      part := Part(c.field, c.op, []);
      assert args == orArgs + ValuesOf(w, c);
      return;
    }
    if IsMatch(c.op) {
      part, argIdx, args := RunLike(w, c, argIdx, args);
      return;
    }
    if c.op.Between? {
      part := Part(c.field, c.op, [argIdx, argIdx + 1]);
      args := args + [w.env(c.exprs[0]).value, w.env(c.exprs[1]).value];
      argIdx := argIdx + 2;
      assert ValuesOf(w, c) == [w.env(c.exprs[0]).value, w.env(c.exprs[1]).value];
      return;
    }
    if IsSet(c.op) {
      part, argIdx, args := RunSet(c.field, c.op, w.env(c.exprs[0]).values, argIdx, args);
      return;
    }
    part := Part(c.field, c.op, [argIdx]);
    args := args + [w.env(c.exprs[0]).value];
    argIdx := argIdx + 1;
    assert ValuesOf(w, c) == [w.env(c.exprs[0]).value];
  }

  /** The conditions of one group, numbered after the arguments that are already there. */
  function PartsOf<R, V>(w: World<R, V>, cs: seq<Written>, given: nat): (r: seq<Part>)
    ensures |r| == |cs|
    decreases |cs|
  {
    if cs == [] then []
    else
      var n := |cs| - 1;
      PartsOf(w, cs[..n], given) +
      [Part(cs[n].field, cs[n].op, Numbers(given + |ArgsOf(w, cs[..n])| + 1, |ValuesOf(w, cs[n])|))]
  }

  function AllParts<R, V>(w: World<R, V>, program: seq<seq<Written>>): (r: seq<seq<Part>>)
    ensures |r| == |program|
    decreases |program|
  {
    if program == [] then []
    else
      var n := |program| - 1;
      AllParts(w, program[..n]) + [PartsOf(w, program[n], |AllArgs(w, program[..n])|)]
  }

  method RunGroup<R, V>(w: World<R, V>, cs: seq<Written>, start: nat, orArgs: seq<V>) returns (parts: seq<Part>, argIdx: nat, args: seq<V>)
    requires start == |orArgs| + 1 && AllTyped(w, cs)
    ensures parts == PartsOf(w, cs, |orArgs|) && args == orArgs + ArgsOf(w, cs) && argIdx == |args| + 1
  {
    hide ValuesOf, Typed;
    parts, argIdx, args := [], start, orArgs;
    assert orArgs + [] == orArgs;
    for k := 0 to |cs|
      invariant argIdx == |args| + 1 && args == orArgs + ArgsOf(w, cs[..k])
      invariant parts == PartsOf(w, cs[..k], |orArgs|)
    {
      assert cs[..k + 1][..k] == cs[..k];
      var part;
      ghost var before := args;
      part, argIdx, args := RunClause(w, cs[k], argIdx, args);
      parts := parts + [part];
      assert before + ValuesOf(w, cs[k]) == orArgs + (ArgsOf(w, cs[..k]) + ValuesOf(w, cs[k]));
    }
    assert cs[..|cs|] == cs;
  }

  /** The emitted code of an OR query; at every clause boundary `argIdx` is one more than the number of arguments. */
  method RunOr<R, V>(w: World<R, V>, program: seq<seq<Written>>) returns (orParts: seq<seq<Part>>, orArgs: seq<V>)
    requires forall g :: 0 <= g < |program| ==> AllTyped(w, program[g])
    ensures orParts == AllParts(w, program) && orArgs == AllArgs(w, program)
  {
    hide ArgsOf, PartsOf;
    orParts, orArgs := [], [];
    var argIdx := 1;
    for g := 0 to |program|
      invariant argIdx == |orArgs| + 1
      invariant orParts == AllParts(w, program[..g]) && orArgs == AllArgs(w, program[..g])
    {
      assert program[..g + 1][..g] == program[..g];
      var parts;
      parts, argIdx, orArgs := RunGroup(w, program[g], argIdx, orArgs);
      orParts := orParts + [parts];
    }
    assert program[..|program|] == program;
  }

  // ---------------------------------------------------------------- placeholders

  function PlaceholdersOf(parts: seq<Part>): seq<nat>
    decreases |parts|
  {
    if parts == [] then [] else PlaceholdersOf(parts[..|parts| - 1]) + parts[|parts| - 1].placeholders
  }

  function AllPlaceholders(groups: seq<seq<Part>>): seq<nat>
    decreases |groups|
  {
    if groups == [] then [] else AllPlaceholders(groups[..|groups| - 1]) + PlaceholdersOf(groups[|groups| - 1])
  }

  lemma {:induction false} GroupNumbers<R, V>(w: World<R, V>, cs: seq<Written>, given: nat)
    ensures PlaceholdersOf(PartsOf(w, cs, given)) == Numbers(given + 1, |ArgsOf(w, cs)|)
    decreases |cs|
  {
    hide ValuesOf;
    if cs != [] {
      var n := |cs| - 1;
      GroupNumbers(w, cs[..n], given);
      var parts := PartsOf(w, cs, given);
      assert parts[..n] == PartsOf(w, cs[..n], given);
    }
  }

  /** In the order of the text the placeholders of the OR form are exactly $1 to $n, n arguments. */
  lemma {:induction false} PlaceholdersExact<R, V>(w: World<R, V>, program: seq<seq<Written>>)
    ensures AllPlaceholders(AllParts(w, program)) == Numbers(1, |AllArgs(w, program)|)
    decreases |program|
  {
    hide PartsOf, ArgsOf;
    if program != [] {
      var n := |program| - 1;
      PlaceholdersExact(w, program[..n]);
      var all := AllParts(w, program);
      assert all[..n] == AllParts(w, program[..n]);
      GroupNumbers(w, program[n], |AllArgs(w, program[..n])|);
    }
  }

  /** The arguments a condition's placeholders stand for. */
  ghost predicate Bound<V>(part: Part, args: seq<V>, values: seq<V>) {
    && |part.placeholders| == |values|
    && forall i :: 0 <= i < |values| ==> 1 <= part.placeholders[i] <= |args| && args[part.placeholders[i] - 1] == values[i]
  }

  lemma {:induction false} NumbersBound<V>(field: string, op: Op, before: seq<V>, values: seq<V>, after: seq<V>)
    ensures Bound(Part(field, op, Numbers(|before| + 1, |values|)), before + values + after, values)
  {
    var args := before + values + after;
    forall i | 0 <= i < |values| ensures args[|before| + i] == values[i] {
    }
    var ph := Numbers(|before| + 1, |values|);
    assert forall i :: 0 <= i < |values| ==> ph[i] == |before| + 1 + i;
  }

  lemma {:induction false} LastPart<R, V>(w: World<R, V>, cs: seq<Written>, given: nat)
    requires cs != []
    ensures var n := |cs| - 1;
      && ArgsOf(w, cs) == ArgsOf(w, cs[..n]) + ValuesOf(w, cs[n])
      && (forall k :: 0 <= k < n ==> PartsOf(w, cs, given)[k] == PartsOf(w, cs[..n], given)[k])
      && PartsOf(w, cs, given)[n] == Part(cs[n].field, cs[n].op, Numbers(given + |ArgsOf(w, cs[..n])| + 1, |ValuesOf(w, cs[n])|))
  {
    hide ValuesOf;
  }

  lemma {:induction false} GroupBound<R, V>(w: World<R, V>, cs: seq<Written>, before: seq<V>, after: seq<V>, k: nat)
    requires k < |cs|
    ensures var part := PartsOf(w, cs, |before|)[k];
      part.field == cs[k].field && part.op == cs[k].op && Bound(part, before + ArgsOf(w, cs) + after, ValuesOf(w, cs[k]))
    decreases |cs|
  {
    hide ValuesOf, PartsOf, ArgsOf, Bound, Numbers;
    var n := |cs| - 1;
    var last, front := ValuesOf(w, cs[n]), ArgsOf(w, cs[..n]);
    LastPart(w, cs, |before|);
    if k < n {
      GroupBound(w, cs[..n], before, last + after, k);
      assert before + front + (last + after) == before + (front + last) + after;
    } else {
      NumbersBound(cs[n].field, cs[n].op, before + front, last, after);
      assert before + front + last + after == before + (front + last) + after;
    }
  }

  /** Every condition's placeholders stand for its own clause's values. */
  lemma {:induction false} OwnArguments<R, V>(w: World<R, V>, program: seq<seq<Written>>, after: seq<V>, g: nat, k: nat)
    requires g < |program| && k < |program[g]|
    ensures |AllParts(w, program)[g]| == |program[g]|
    ensures var part := AllParts(w, program)[g][k];
      && part.field == program[g][k].field && part.op == program[g][k].op
      && Bound(part, AllArgs(w, program) + after, ValuesOf(w, program[g][k]))
    decreases |program|
  {
    hide ValuesOf, PartsOf, ArgsOf, Bound;
    var n := |program| - 1;
    var front, last := AllArgs(w, program[..n]), ArgsOf(w, program[n]);
    if g < n {
      OwnArguments(w, program[..n], last + after, g, k);
      assert front + (last + after) == (front + last) + after;
    } else {
      GroupBound(w, program[n], front, after, k);
      assert front + last + after == (front + last) + after;
    }
  }

  // ---------------------------------------------------------------- meaning

  /** The values behind the placeholders. */
  function Lookup<V>(placeholders: seq<nat>, args: seq<V>): seq<V>
    requires forall i :: 0 <= i < |placeholders| ==> 1 <= placeholders[i] <= |args|
  {
    seq(|placeholders|, i requires 0 <= i < |placeholders| => args[placeholders[i] - 1])
  }

  predicate PartHolds<R, V>(w: World<R, V>, part: Part, args: seq<V>, row: R) {
    && (forall i :: 0 <= i < |part.placeholders| ==> 1 <= part.placeholders[i] <= |args|)
    && w.test(part.field, part.op, Lookup(part.placeholders, args), row)
  }

  /** The SQL of the OR form on a row. */
  predicate OrHolds<R, V>(w: World<R, V>, groups: seq<seq<Part>>, args: seq<V>, row: R) {
    exists g :: 0 <= g < |groups| && GroupHolds(w, groups[g], args, row)
  }

  predicate GroupHolds<R, V>(w: World<R, V>, parts: seq<Part>, args: seq<V>, row: R) {
    forall k :: 0 <= k < |parts| ==> PartHolds(w, parts[k], args, row)
  }

  /** The clause on a row: its operator, on its column, with the parameters the clause takes from the request. */
  predicate ClauseHolds<R, V>(w: World<R, V>, c: Clause, row: R) {
    var f := c.field;
    match c.op
    case IsTrue => w.test(f, c.op, [], row)
    case IsFalse => w.test(f, c.op, [], row)
    case IsNull => w.test(f, c.op, [], row)
    case IsNotNull => w.test(f, c.op, [], row)
    case Between => w.test(f, c.op, Elements(w.env(f + "From")) + Elements(w.env(f + "To")), row)
    case InSet => w.test(f, c.op, Elements(w.env(f + "s")), row)
    case NotInSet => w.test(f, c.op, Elements(w.env(f + "s")), row)
    case Containing => w.test(f, c.op, Around(w, true, w.env("keyword"), true), row)
    case NotContaining => w.test(f, c.op, Around(w, true, w.env("keyword"), true), row)
    case StartsWith => w.test(f, c.op, Around(w, false, w.env(f + "Prefix"), true), row)
    case EndsWith => w.test(f, c.op, Around(w, true, w.env(f + "Suffix"), false), row)
    case _ => w.test(f, c.op, Elements(w.env(f)), row)
  }

  /** The texts of an argument as patterns. */
  function Around<R, V>(w: World<R, V>, before: bool, a: Arg<V>, after: bool): seq<V> {
    match a
    case One(v) => [w.like(before, v, after)]
    case Many(vs) => seq(|vs|, i requires 0 <= i < |vs| => w.like(before, vs[i], after))
  }

  predicate Selects<R, V>(w: World<R, V>, clauses: seq<Clause>, row: R) {
    forall k :: 0 <= k < |clauses| ==> ClauseHolds(w, clauses[k], row)
  }

  predicate QuerySelects<R, V>(w: World<R, V>, q: Query, row: R) {
    exists g :: 0 <= g < |q| && Selects(w, q[g], row)
  }

  /** A clause evaluated with its own parameters means the clause. */
  lemma {:induction false} OwnMeans<R, V>(w: World<R, V>, c: Clause, types: string -> string, row: R)
    ensures ClauseHolds(w, c, row) <==> w.test(c.field, c.op, ValuesOf(w, Own(c, types)), row)
  {
    var own := Own(c, types);
    if IsMatch(c.op) {
      MatchMeans(w, c.op, w.env(ParamName(c)));
      assert own.exprs == [ParamName(c)];
    } else if c.op.Between? {
      assert own.exprs == [c.field + "From", c.field + "To"];
    } else if !TakesNothing(c.op) {
      assert own.exprs == [ParamName(c)];
    }
  }

  lemma {:induction false} MatchMeans<R, V>(w: World<R, V>, op: Op, a: Arg<V>)
    ensures op.Containing? || op.NotContaining? ==> Wrapped(w, op, Elements(a)) == Around(w, true, a, true)
    ensures op.StartsWith? ==> Wrapped(w, op, Elements(a)) == Around(w, false, a, true)
    ensures op.EndsWith? ==> Wrapped(w, op, Elements(a)) == Around(w, true, a, false)
    ensures op.Like? || op.NotLike? || op.IgnoreCase? ==> Wrapped(w, op, Elements(a)) == Elements(a)
  {
  }

  lemma {:induction false} BoundHolds<R, V>(w: World<R, V>, part: Part, args: seq<V>, values: seq<V>, row: R)
    requires Bound(part, args, values)
    ensures PartHolds(w, part, args, row) <==> w.test(part.field, part.op, values, row)
  {
    assert Lookup(part.placeholders, args) == values;
  }

  /** The OR form means the query: a row passes if, for some group, it passes every clause of the
      group, each with its own arguments, whatever the lengths of the list arguments. */
  lemma {:induction false} OrFormMeans<R, V>(w: World<R, V>, q: Query, types: string -> string, row: R)
    ensures var program := OwnGroups(q, types);
      OrHolds(w, AllParts(w, program), AllArgs(w, program), row) <==> QuerySelects(w, q, row)
  {
    hide AllParts, AllArgs, ValuesOf, Own, Bound, PartHolds, ClauseHolds;
    var program := OwnGroups(q, types);
    var parts, args := AllParts(w, program), AllArgs(w, program);
    forall g | 0 <= g < |q| ensures GroupHolds(w, parts[g], args, row) <==> Selects(w, q[g], row) {
      GroupMeans(w, q, types, row, g);
    }
  }

  lemma {:induction false} GroupMeans<R, V>(w: World<R, V>, q: Query, types: string -> string, row: R, g: nat)
    requires g < |q|
    ensures var program := OwnGroups(q, types);
      GroupHolds(w, AllParts(w, program)[g], AllArgs(w, program), row) <==> Selects(w, q[g], row)
  {
    hide AllParts, AllArgs, ValuesOf, Own, Bound, PartHolds, ClauseHolds;
    var program := OwnGroups(q, types);
    var parts, args := AllParts(w, program), AllArgs(w, program);
    GroupSize(w, program, g);
    forall k | 0 <= k < |q[g]| ensures PartHolds(w, parts[g][k], args, row) <==> ClauseHolds(w, q[g][k], row) {
      OwnArguments(w, program, [], g, k);
      assert args + [] == args;
      BoundHolds(w, parts[g][k], args, ValuesOf(w, program[g][k]), row);
      assert program[g][k] == Own(q[g][k], types);
      OwnKeeps(q[g][k], types);
      OwnMeans(w, q[g][k], types, row);
    }
  }

  lemma {:induction false} OwnKeeps(c: Clause, types: string -> string)
    ensures Own(c, types).field == c.field && Own(c, types).op == c.op
  {
  }

  lemma {:induction false} GroupSize<R, V>(w: World<R, V>, program: seq<seq<Written>>, g: nat)
    requires g < |program|
    ensures |AllParts(w, program)[g]| == |program[g]|
    decreases |program|
  {
    hide PartsOf, AllArgs;
    if g < |program| - 1 {
      GroupSize(w, program[..|program| - 1], g);
    }
  }

  /** The values have the declared types exactly when list parameters are lists and the others single values. */
  lemma {:induction false} TypedIff<R, V>(w: World<R, V>, c: Clause, types: string -> string)
    ensures var f := c.field;
      Typed(w, Own(c, types)) <==>
        match c.op
        case IsTrue => true
        case IsFalse => true
        case IsNull => true
        case IsNotNull => true
        case Between => w.env(f + "From").One? && w.env(f + "To").One?
        case InSet => w.env(f + "s").Many?
        case NotInSet => w.env(f + "s").Many?
        case Containing => w.env("keyword").One?
        case NotContaining => w.env("keyword").One?
        case StartsWith => w.env(f + "Prefix").One?
        case EndsWith => w.env(f + "Suffix").One?
        case _ => w.env(f).One?
  {
    var own := Own(c, types);
    if c.op.Between? {
      assert own.exprs == [c.field + "From", c.field + "To"];
    } else if !TakesNothing(c.op) {
      assert own.exprs == [ParamName(c)];
    }
  }

  /** The handler's condition: its SQL, and the arguments of a request. */
  datatype Condition<V> = Condition(parts: seq<seq<Part>>, args: seq<V>)

  /** The request's parameters have the Go types the handler declares for them. */
  predicate RequestTyped<R, V>(w: World<R, V>, q: Query, types: string -> string) {
    forall g :: 0 <= g < |q| ==> AllTyped(w, OwnAll(q[g], types))
  }

  /** Parameters built, consumed and run. There is no handler if and only if two clauses clash, for then
      the code generated does not compile; otherwise its placeholders are $1 to $n, and its condition
      is the query. */
  method InferOr<R, V>(w: World<R, V>, q: Query, types: string -> string) returns (r: Option<Condition<V>>)
    requires NoClash(Flat(q)) ==> RequestTyped(w, q, types)
    ensures r.Some? <==> NoClash(Flat(q))
    ensures r.Some? ==> AllPlaceholders(r.value.parts) == Numbers(1, |r.value.args|)
    ensures r.Some? ==> forall row :: OrHolds(w, r.value.parts, r.value.args, row) <==> QuerySelects(w, q, row)
  {
    hide AllParts, AllArgs, OrHolds, QuerySelects, ParamsOfAll, AllPlaceholders, NoClash, Clash, Names, AllTyped, OwnAll;
    var params := BuildParams(q, types);
    HandlerCompilesIff(q, types);
    if !NoDuplicates(Names(params)) {
      return None;
    }
    var program, consumed := WriteOr(q, types, params);
    var orParts, orArgs := RunOr(w, program);
    PlaceholdersExact(w, program);
    forall row ensures OrHolds(w, orParts, orArgs, row) <==> QuerySelects(w, q, row) {
      OrFormMeans(w, q, types, row);
    }
    return Some(Condition(orParts, orArgs));
  }

  // ---------------------------------------------------------------- the finding

  /** SQL has no empty list of values and no empty group. */
  predicate ValidSQL(groups: seq<seq<Part>>) {
    forall g :: 0 <= g < |groups| ==> groups[g] != [] && PartsValid(groups[g])
  }

  predicate PartsValid(parts: seq<Part>) {
    forall k :: 0 <= k < |parts| ==> !(IsSet(parts[k].op) && parts[k].placeholders == [])
  }

  /** The guard a caller can check: every list argument has an element. */
  predicate ListsNonEmpty<R, V>(w: World<R, V>, q: Query) {
    forall g, k :: 0 <= g < |q| && 0 <= k < |q[g]| && IsSet(q[g][k].op) ==> Elements(w.env(ParamName(q[g][k]))) != []
  }

  /** The OR form is valid SQL exactly when no list argument is empty: for an empty list the AND form
      has a constant, but the OR form renders an empty pair of parentheses. */
  lemma {:induction false} OrFormValidIff<R, V>(w: World<R, V>, q: Query, types: string -> string)
    requires forall g :: 0 <= g < |q| ==> q[g] != []
    ensures ValidSQL(AllParts(w, OwnGroups(q, types))) <==> ListsNonEmpty(w, q)
  {
    hide AllParts, AllArgs, Elements, ParamName;
    var program := OwnGroups(q, types);
    var parts: seq<seq<Part>> := AllParts(w, program);
    forall g | 0 <= g < |q| ensures |parts[g]| == |q[g]| {
      GroupSize(w, program, g);
    }
    forall g, k | 0 <= g < |q| && 0 <= k < |q[g]|
      ensures IsSet(parts[g][k].op) && parts[g][k].placeholders == [] <==> IsSet(q[g][k].op) && Elements(w.env(ParamName(q[g][k]))) == []
    {
      SetPart(w, q, types, g, k);
    }
    hide IsSet, OwnGroups;
    forall g | 0 <= g < |q|
      ensures PartsValid(parts[g]) <==> forall k :: 0 <= k < |q[g]| && IsSet(q[g][k].op) ==> Elements(w.env(ParamName(q[g][k]))) != []
    {
    }
  }

  lemma {:induction false} SetPart<R, V>(w: World<R, V>, q: Query, types: string -> string, g: nat, k: nat)
    requires g < |q| && k < |q[g]|
    ensures |AllParts(w, OwnGroups(q, types))[g]| == |q[g]|
    ensures var part := AllParts(w, OwnGroups(q, types))[g][k];
      IsSet(part.op) && part.placeholders == [] <==> IsSet(q[g][k].op) && Elements(w.env(ParamName(q[g][k]))) == []
  {
    hide AllParts, AllArgs, Elements, ParamName;
    var program := OwnGroups(q, types);
    OwnArguments(w, program, [], g, k);
    assert program[g][k] == Own(q[g][k], types);
    if IsSet(q[g][k].op) {
      assert ValuesOf(w, program[g][k]) == Elements(w.env(ParamName(q[g][k])));
    }
  }

  /** It happens: one of two groups asks for a status in a list, and the list is empty. */
  lemma {:induction false} EmptyListIsInvalid<R, V>(w: World<R, V>, types: string -> string)
    requires w.env("statuss") == Many([])
    ensures var q := [[Clause("email", Eq)], [Clause("status", InSet)]];
      NoClash(Flat(q)) && !ValidSQL(AllParts(w, OwnGroups(q, types)))
  {
    var email, status := Clause("email", Eq), Clause("status", InSet);
    var q: Query := [[email], [status]];
    assert !Clash(email, status) && ParamName(status) == "statuss";
    assert IsSet(q[1][0].op) && Elements(w.env(ParamName(q[1][0]))) == [];
    hide Clash, Flat, AllParts, OwnGroups, ParamName, Elements, ValidSQL;
    FlatTwo([email], [status]);
    assert [email] + [status] == [email, status];
    OrFormValidIff(w, q, types);
  }
}
