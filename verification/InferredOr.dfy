/**
 Queries inferred from API names, such as getUserByEmailOrPhoneAndAgeBetween: the parameters built for
 the clauses, and the two writers that consume them by position.
 */
module InferredOr {

  datatype Op =
    | IsTrue | IsFalse | IsNull | IsNotNull
    | Between
    | InSet | NotInSet
    | Containing | NotContaining | StartsWith | EndsWith | Like | NotLike | IgnoreCase
    | Eq | Ne | Gt | Gte | Lt | Lte

  datatype Clause = Clause(field: string, op: Op)

  /** Groups of AND-ed clauses, OR-ed together. */
  type Query = seq<seq<Clause>>

  datatype Param = Param(name: string, typeName: string, isList: bool)

  /** What a writer emits for a clause: its column, its operator and its argument expressions. */
  datatype Written = Written(field: string, op: Op, exprs: seq<string>)

  /** A condition of the SQL text, with the numbers of its placeholders. */
  datatype Part = Part(field: string, op: Op, placeholders: seq<nat>)

  /** The value of a parameter. */
  datatype Arg<V> = One(value: V) | Many(values: seq<V>)

  // ---------------------------------------------------------------- parameters

  predicate IsSet(op: Op) { op.InSet? || op.NotInSet? }

  predicate IsMatch(op: Op) {
    op.Containing? || op.NotContaining? || op.StartsWith? || op.EndsWith? || op.Like? || op.NotLike? || op.IgnoreCase?
  }

  predicate TakesNothing(op: Op) { op.IsTrue? || op.IsFalse? || op.IsNull? || op.IsNotNull? }

  function ParamName(c: Clause): string {
    match c.op
    case Containing => "keyword"
    case NotContaining => "keyword"
    case StartsWith => c.field + "Prefix"
    case EndsWith => c.field + "Suffix"
    case InSet => c.field + "s"
    case NotInSet => c.field + "s"
    case _ => c.field
  }

  /** The parameters of one clause; `types` gives the type name of a field. */
  function ParamsOf(c: Clause, types: string -> string): seq<Param> {
    if TakesNothing(c.op) then []
    else if c.op.Between? then [Param(c.field + "From", types(c.field), false), Param(c.field + "To", types(c.field), false)]
    else if IsSet(c.op) then [Param(ParamName(c), types(c.field), true)]
    else if IsMatch(c.op) then [Param(ParamName(c), "String", false)]
    else [Param(ParamName(c), types(c.field), false)]
  }

  function ParamsOfAll(clauses: seq<Clause>, types: string -> string): seq<Param>
    decreases |clauses|
  {
    if clauses == [] then []
    else
      var n := |clauses| - 1;
      ParamsOfAll(clauses[..n], types) + ParamsOf(clauses[n], types)
  }

  function Flat(q: Query): seq<Clause>
    decreases |q|
  {
    if q == [] then [] else Flat(q[..|q| - 1]) + q[|q| - 1]
  }

  lemma {:induction false} ParamsSplit(a: seq<Clause>, b: seq<Clause>, types: string -> string)
    ensures ParamsOfAll(a + b, types) == ParamsOfAll(a, types) + ParamsOfAll(b, types)
    decreases |b|
  {
    hide ParamsOf;
    if b == [] {
      assert a + b == a;
    } else {
      var n := |b| - 1;
      assert (a + b)[..|a| + n] == a + b[..n];
      ParamsSplit(a, b[..n], types);
    }
  }

  /** The parameters by operator: their names, whether they are lists, and the type of the field or String. */
  lemma {:induction false} ParamsByOperator(c: Clause, types: string -> string)
    ensures var f, t := c.field, types(c.field);
      ParamsOf(c, types) ==
        match c.op
        case IsTrue => []
        case IsFalse => []
        case IsNull => []
        case IsNotNull => []
        case Between => [Param(f + "From", t, false), Param(f + "To", t, false)]
        case InSet => [Param(f + "s", t, true)]
        case NotInSet => [Param(f + "s", t, true)]
        case Containing => [Param("keyword", "String", false)]
        case NotContaining => [Param("keyword", "String", false)]
        case StartsWith => [Param(f + "Prefix", "String", false)]
        case EndsWith => [Param(f + "Suffix", "String", false)]
        case Like => [Param(f, "String", false)]
        case NotLike => [Param(f, "String", false)]
        case IgnoreCase => [Param(f, "String", false)]
        case _ => [Param(f, t, false)]
  {
    assert c.op.Between? || c.op.InSet? || c.op.NotInSet? ==> !TakesNothing(c.op);
  }

  method AppendParams(built: seq<Param>, c: Clause, types: string -> string) returns (params: seq<Param>)
    ensures params == built + ParamsOf(c, types)
  {
    params := built;
    if TakesNothing(c.op) {
      return;
    }
    if c.op.Between? {
      params := params + [Param(c.field + "From", types(c.field), false), Param(c.field + "To", types(c.field), false)];
    } else if IsSet(c.op) {
      params := params + [Param(ParamName(c), types(c.field), true)];
    } else if IsMatch(c.op) {
      params := params + [Param(ParamName(c), "String", false)];
    } else {
      params := params + [Param(ParamName(c), types(c.field), false)];
    }
  }

  lemma {:induction false} ParamsLast(clauses: seq<Clause>, c: Clause, types: string -> string)
    ensures ParamsOfAll(clauses + [c], types) == ParamsOfAll(clauses, types) + ParamsOf(c, types)
  {
    hide ParamsOf;
    assert (clauses + [c])[..|clauses|] == clauses;
  }

  lemma {:induction false} FlatLast(q: Query, g: nat)
    requires g < |q|
    ensures Flat(q[..g + 1]) == Flat(q[..g]) + q[g]
  {
    assert q[..g + 1][..g] == q[..g];
  }

  lemma {:induction false} NothingBuilt(q: Query, types: string -> string)
    ensures Flat(q[..0]) == [] && ParamsOfAll([], types) == []
  {
  }

  method BuildParams(q: Query, types: string -> string) returns (params: seq<Param>)
    ensures params == ParamsOfAll(Flat(q), types)
  {
    hide ParamsOf, ParamsOfAll, Flat;
    params := [];
    ghost var done: seq<Clause> := [];
    NothingBuilt(q, types);
    for g := 0 to |q|
      invariant done == Flat(q[..g]) && params == ParamsOfAll(done, types)
    {
      FlatLast(q, g);
      ghost var before := done;
      assert before + q[g][..0] == before;
      for k := 0 to |q[g]|
        invariant done == before + q[g][..k] && params == ParamsOfAll(done, types)
      {
        ParamsLast(done, q[g][k], types);
        params := AppendParams(params, q[g][k], types);
        assert done + [q[g][k]] == before + q[g][..k + 1];
        done := done + [q[g][k]];
      }
      assert q[g][..|q[g]|] == q[g];
    }
    assert q[..|q|] == q;
  }

  // ---------------------------------------------------------------- the writers

  function NameAt(params: seq<Param>, i: nat): string {
    if i < |params| then params[i].name else ""
  }

  /** A clause with the names of its own parameters. */
  function Own(c: Clause, types: string -> string): Written {
    var ps := ParamsOf(c, types);
    Written(c.field, c.op, seq(|ps|, i requires 0 <= i < |ps| => ps[i].name))
  }

  function OwnAll(clauses: seq<Clause>, types: string -> string): (r: seq<Written>)
    ensures |r| == |clauses|
  {
    seq(|clauses|, k requires 0 <= k < |clauses| => Own(clauses[k], types))
  }

  /** Parameters of the query stand at this position: before, those of the clause, after. */
  lemma {:induction false} NamesHere(before: seq<Param>, c: Clause, after: seq<Param>, types: string -> string)
    ensures var params := before + ParamsOf(c, types) + after;
      && (|ParamsOf(c, types)| >= 1 ==> NameAt(params, |before|) == ParamsOf(c, types)[0].name)
      && (|ParamsOf(c, types)| == 2 ==> NameAt(params, |before| + 1) == ParamsOf(c, types)[1].name)
  {
  }

  /** The AND writer: one condition of the list. */
  method WriteAndClause(c: Clause, params: seq<Param>, paramIdx: nat) returns (w: Written, next: nat)
    ensures next == paramIdx + (if TakesNothing(c.op) then 0 else if c.op.Between? then 2 else 1)
    ensures w.field == c.field && w.op == c.op
    ensures w.exprs == if TakesNothing(c.op) then [] else if c.op.Between? then [NameAt(params, paramIdx), NameAt(params, paramIdx + 1)] else [NameAt(params, paramIdx)]
  {
    var paramExpr := "";
    if paramIdx < |params| {
      paramExpr := params[paramIdx].name;
    }
    if TakesNothing(c.op) {
      return Written(c.field, c.op, []), paramIdx;
    }
    if IsMatch(c.op) {
      return Written(c.field, c.op, [paramExpr]), paramIdx + 1;
    }
    if c.op.Between? {
      var param2 := "";
      if paramIdx + 1 < |params| {
        param2 := params[paramIdx + 1].name;
      }
      return Written(c.field, c.op, [paramExpr, param2]), paramIdx + 2;
    }
    return Written(c.field, c.op, [paramExpr]), paramIdx + 1;
  }

  /** The OR writer: the statements that will append the clause's text and arguments. */
  method WriteOrClause(c: Clause, params: seq<Param>, paramIdx: nat) returns (w: Written, next: nat)
    ensures next == paramIdx + (if TakesNothing(c.op) then 0 else if c.op.Between? then 2 else 1)
    ensures w.field == c.field && w.op == c.op
    ensures w.exprs == if TakesNothing(c.op) then [] else if c.op.Between? then [NameAt(params, paramIdx), NameAt(params, paramIdx + 1)] else [NameAt(params, paramIdx)]
  {
    if TakesNothing(c.op) {
      return Written(c.field, c.op, []), paramIdx;
    }
    var paramExpr := NameAt(params, paramIdx);
    if IsMatch(c.op) {
      return Written(c.field, c.op, [paramExpr]), paramIdx + 1;
    }
    if c.op.Between? {
      return Written(c.field, c.op, [paramExpr, NameAt(params, paramIdx + 1)]), paramIdx + 2;
    }
    if IsSet(c.op) {
      return Written(c.field, c.op, [paramExpr]), paramIdx + 1;
    }
    return Written(c.field, c.op, [paramExpr]), paramIdx + 1;
  }

  lemma {:induction false} WrittenIsOwn(c: Clause, before: seq<Param>, after: seq<Param>, types: string -> string, w: Written)
    requires w.field == c.field && w.op == c.op
    requires var params, n := before + ParamsOf(c, types) + after, |before|;
      w.exprs == if TakesNothing(c.op) then [] else if c.op.Between? then [NameAt(params, n), NameAt(params, n + 1)] else [NameAt(params, n)]
    ensures w == Own(c, types)
  {
    NamesHere(before, c, after, types);
  }

  /** One group's conditions. The AND writer takes every clause's own parameters, in order, and ends
      where the parameters of the group end. */
  method WriteAnd(clauses: seq<Clause>, types: string -> string, params: seq<Param>) returns (conds: seq<Written>, paramIdx: nat)
    requires params == ParamsOfAll(clauses, types)
    ensures conds == OwnAll(clauses, types) && paramIdx == |params|
  {
    hide ParamsOf, Own;
    conds, paramIdx := [], 0;
    for k := 0 to |clauses|
      invariant |conds| == k && forall j :: 0 <= j < k ==> conds[j] == Own(clauses[j], types)
      invariant paramIdx == |ParamsOfAll(clauses[..k], types)|
    {
      var w, next := WriteAndClause(clauses[k], params, paramIdx);
      ParamsAround(clauses, k, types);
      WrittenIsOwn(clauses[k], ParamsOfAll(clauses[..k], types), ParamsOfAll(clauses[k + 1..], types), types, w);
      Arity(clauses[k], types);
      conds, paramIdx := conds + [w], next;
    }
    assert clauses[..|clauses|] == clauses;
  }

  lemma {:induction false} Arity(c: Clause, types: string -> string)
    ensures |ParamsOf(c, types)| == if TakesNothing(c.op) then 0 else if c.op.Between? then 2 else 1
  {
  }

  lemma {:induction false} ParamsAround(clauses: seq<Clause>, k: nat, types: string -> string)
    requires k < |clauses|
    ensures ParamsOfAll(clauses, types) ==
      ParamsOfAll(clauses[..k], types) + ParamsOf(clauses[k], types) + ParamsOfAll(clauses[k + 1..], types)
    ensures ParamsOfAll(clauses[..k + 1], types) == ParamsOfAll(clauses[..k], types) + ParamsOf(clauses[k], types)
  {
    hide ParamsOf;
    assert clauses[..k + 1][..k] == clauses[..k];
    assert clauses == clauses[..k + 1] + clauses[k + 1..];
    ParamsSplit(clauses[..k + 1], clauses[k + 1..], types);
  }

  function OwnGroups(q: Query, types: string -> string): (r: seq<seq<Written>>)
    ensures |r| == |q|
  {
    seq(|q|, g requires 0 <= g < |q| => OwnAll(q[g], types))
  }

  /** All groups, the parameter index threaded through: the OR writer, too, gives every clause its own
      parameters and uses them all. */
  method WriteOr(q: Query, types: string -> string, params: seq<Param>) returns (program: seq<seq<Written>>, paramIdx: nat)
    requires params == ParamsOfAll(Flat(q), types)
    ensures program == OwnGroups(q, types) && paramIdx == |params|
  {
    hide ParamsOf, Own, ParamsOfAll, OwnAll;
    program, paramIdx := [], 0;
    assert Flat(q[..0]) == [];
    NoParams(types);
    for g := 0 to |q|
      invariant |program| == g && forall h :: 0 <= h < g ==> program[h] == OwnAll(q[h], types)
      invariant paramIdx == |ParamsOfAll(Flat(q[..g]), types)|
    {
      FlatAround(q, g);
      var group, next := WriteOrGroup(q[g], types, params, paramIdx, Flat(q[..g]), Flat(q[g + 1..]));
      ParamsSplit(Flat(q[..g]), q[g], types);
      program, paramIdx := program + [group], next;
    }
    assert q[..|q|] == q;
  }

  lemma {:induction false} NoParams(types: string -> string)
    ensures ParamsOfAll([], types) == []
  {
  }

  lemma {:induction false} FlatSplit(a: Query, b: Query)
    ensures Flat(a + b) == Flat(a) + Flat(b)
    decreases |b|
  {
    if b == [] {
      assert a + b == a;
    } else {
      var n := |b| - 1;
      assert (a + b)[..|a| + n] == a + b[..n];
      FlatSplit(a, b[..n]);
    }
  }

  lemma {:induction false} FlatAround(q: Query, g: nat)
    requires g < |q|
    ensures Flat(q) == Flat(q[..g]) + (q[g] + Flat(q[g + 1..]))
    ensures Flat(q[..g + 1]) == Flat(q[..g]) + q[g]
  {
    assert q[..g + 1][..g] == q[..g];
    assert q == q[..g + 1] + q[g + 1..];
    FlatSplit(q[..g + 1], q[g + 1..]);
    assert (Flat(q[..g]) + q[g]) + Flat(q[g + 1..]) == Flat(q[..g]) + (q[g] + Flat(q[g + 1..]));
  }

  /** A group between the clauses before and after it. */
  method WriteOrGroup(clauses: seq<Clause>, types: string -> string, params: seq<Param>, start: nat, ghost before: seq<Clause>, ghost after: seq<Clause>)
    returns (group: seq<Written>, paramIdx: nat)
    requires params == ParamsOfAll(before + (clauses + after), types) && start == |ParamsOfAll(before, types)|
    ensures group == OwnAll(clauses, types) && paramIdx == |ParamsOfAll(before + clauses, types)|
  {
    hide ParamsOf, Own, ParamsOfAll;
    group, paramIdx := [], start;
    assert before + clauses[..0] == before;
    ghost var all := before + (clauses + after);
    for k := 0 to |clauses|
      invariant |group| == k && forall j :: 0 <= j < k ==> group[j] == Own(clauses[j], types)
      invariant paramIdx == |ParamsOfAll(before + clauses[..k], types)|
    {
      var w, next := WriteOrClause(clauses[k], params, paramIdx);
      ghost var at := |before| + k;
      assert all[at] == clauses[k] && all[..at] == before + clauses[..k] && all[..at + 1] == before + clauses[..k + 1];
      ParamsAround(all, at, types);
      WrittenIsOwn(clauses[k], ParamsOfAll(all[..at], types), ParamsOfAll(all[at + 1..], types), types, w);
      Arity(clauses[k], types);
      group, paramIdx := group + [w], next;
    }
    assert clauses[..|clauses|] == clauses;
  }
}
