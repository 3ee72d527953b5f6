/**
 What the emitted queries return: numbered placeholders, the batched statement, and the theorem that
 every variable gets the same value from its slot in the batch as from its own query.
 */
module FusionMeaning {
  import opened Wrappers
  import opened AwaitFusion
  import opened FusionQueries

  /** A condition at run time: a fragment of SQL and the arguments of its placeholders. */
  datatype Bound<A> = Bound(template: string, args: seq<A>)

  /** The tables, the values of the condition expressions, the meaning of a fragment on a row, any
      aggregate that is a function of the selected rows, and the values of all other tasks. */
  datatype World<!R, !A, !V> = World(
    rows: string -> seq<R>,
    condition: string -> Bound<A>,
    test: (string, seq<A>, R) -> bool,
    aggregate: (string, string, seq<R>) -> V,
    other: nat -> V)

  /** A rendered condition: its placeholders are `$first` and the `arity - 1` numbers after it. */
  datatype Fragment = Fragment(template: string, first: nat, arity: nat)

  /** One column of the batch, COALESCE(function(column) FILTER (WHERE filter), 0). */
  datatype Expression = Expression(function_: string, column: string, filter: seq<Fragment>)

  datatype Statement<A> = Statement(model: string, where_: seq<Fragment>, columns: seq<Expression>, args: seq<A>)

  // ---------------------------------------------------------------- rendering

  function Values<R, A, V>(w: World<R, A, V>, conditions: seq<string>): (r: seq<Bound<A>>)
    ensures |r| == |conditions| && forall i :: 0 <= i < |r| ==> r[i] == w.condition(conditions[i])
  {
    seq(|conditions|, i requires 0 <= i < |conditions| => w.condition(conditions[i]))
  }

  /** The fragments, numbered from `$first` on, and their arguments. */
  function Render<A>(conditions: seq<Bound<A>>, first: nat): (r: (seq<Fragment>, seq<A>))
    ensures |r.0| == |conditions|
    decreases |conditions|
  {
    if conditions == [] then ([], [])
    else
      var n := |conditions| - 1;
      var (fragments, args) := Render(conditions[..n], first);
      (fragments + [Fragment(conditions[n].template, first + |args|, |conditions[n].args|)], args + conditions[n].args)
  }

  method ConditionsSQL<A>(conditions: seq<Bound<A>>, argOffset: nat) returns (fragments: seq<Fragment>, args: seq<A>)
    ensures (fragments, args) == Render(conditions, argOffset)
  {
    fragments, args := [], [];
    for i := 0 to |conditions|
      invariant (fragments, args) == Render(conditions[..i], argOffset)
    {
      assert conditions[..i + 1][..i] == conditions[..i];
      fragments := fragments + [Fragment(conditions[i].template, argOffset + |args|, |conditions[i].args|)];
      args := args + conditions[i].args;
    }
    assert conditions[..|conditions|] == conditions;
  }

  predicate ValidExpression(function_: string, column: string) {
    if function_ == "count" then column == "" else function_ in ["sum", "avg", "min", "max"] && column != ""
  }

  /** The columns of the batch and all arguments, those given first; None for an unsupported aggregate. */
  function RenderColumns<R, A, V>(w: World<R, A, V>, tasks: seq<Aggregate>, given: seq<A>): (r: Option<(seq<Expression>, seq<A>)>)
    ensures r.Some? ==> |r.value.0| == |tasks|
    decreases |tasks|
  {
    if tasks == [] then Some(([], given))
    else
      var n := |tasks| - 1;
      match RenderColumns(w, tasks[..n], given)
      case None => None
      case Some((columns, args)) =>
        var (filter, more) := Render(Values(w, tasks[n].conditions), |args| + 1);
        if ValidExpression(tasks[n].function_, tasks[n].column) then
          Some((columns + [Expression(tasks[n].function_, tasks[n].column, filter)], args + more))
        else None
  }

  /** The statement of a batch, shared conditions first; None for an empty batch or a bad aggregate. */
  function BatchStatement<R, A, V>(w: World<R, A, V>, g: Group): Option<Statement<A>> {
    if g.tasks == [] then None
    else
      var (where_, args) := Render(Values(w, g.common), 1);
      match RenderColumns(w, g.tasks, args)
      case None => None
      case Some((columns, all)) => Some(Statement(g.model, where_, columns, all))
  }

  method BuildBatch<R, A, V>(w: World<R, A, V>, g: Group) returns (r: Option<Statement<A>>)
    ensures r == BatchStatement(w, g)
  {
    hide Render, ValidExpression, RenderColumns;
    if |g.tasks| == 0 {
      return None;
    }
    var where_, args := ConditionsSQL(Values(w, g.common), 1);
    ghost var given := args;
    var columns: seq<Expression> := [];
    assert RenderColumns(w, g.tasks[..0], given) == Some((columns, args)) by {
      NoColumns(w, given);
      assert g.tasks[..0] == [];
    }
    for k := 0 to |g.tasks|
      invariant RenderColumns(w, g.tasks[..k], given) == Some((columns, args))
    {
      var filter, filterArgs := ConditionsSQL(Values(w, g.tasks[k].conditions), |args| + 1);
      OneColumn(w, g.tasks, k, given);
      if !ValidExpression(g.tasks[k].function_, g.tasks[k].column) {
        RenderFails(w, g.tasks, k + 1, given);
        return None;
      }
      columns, args := columns + [Expression(g.tasks[k].function_, g.tasks[k].column, filter)], args + filterArgs;
    }
    assert g.tasks[..|g.tasks|] == g.tasks;
    return Some(Statement(g.model, where_, columns, args));
  }

  /** A count has no column, the other four aggregates have one. */
  predicate Supported(a: Aggregate) {
    (a.function_ == "count" && a.column == "") || (a.function_ in {"sum", "avg", "min", "max"} && a.column != "")
  }

  lemma {:induction false} RendersIff<R, A, V>(w: World<R, A, V>, tasks: seq<Aggregate>, given: seq<A>)
    ensures RenderColumns(w, tasks, given).Some? <==> forall k :: 0 <= k < |tasks| ==> Supported(tasks[k])
    decreases |tasks|
  {
    hide Render, Values;
    if tasks != [] {
      RendersIff(w, tasks[..|tasks| - 1], given);
    }
  }

  /** A batch is refused exactly when it is empty or has an aggregate that is not supported. */
  lemma {:induction false} BatchRefusedIff<R, A, V>(w: World<R, A, V>, g: Group)
    ensures BatchStatement(w, g).None? <==> g.tasks == [] || exists k :: 0 <= k < |g.tasks| && !Supported(g.tasks[k])
  {
    hide Supported, RenderColumns, Render, Values;
    RendersIff(w, g.tasks, Render(Values(w, g.common), 1).1);
  }

  lemma {:induction false} NoColumns<R, A, V>(w: World<R, A, V>, given: seq<A>)
    ensures RenderColumns(w, [], given) == Some(([], given))
  {
  }

  lemma {:induction false} OneColumn<R, A, V>(w: World<R, A, V>, tasks: seq<Aggregate>, k: nat, given: seq<A>)
    requires k < |tasks| && RenderColumns(w, tasks[..k], given).Some?
    ensures var (columns, args) := RenderColumns(w, tasks[..k], given).value;
      var (filter, more) := Render(Values(w, tasks[k].conditions), |args| + 1);
      RenderColumns(w, tasks[..k + 1], given) ==
        if ValidExpression(tasks[k].function_, tasks[k].column) then
          Some((columns + [Expression(tasks[k].function_, tasks[k].column, filter)], args + more))
        else None
  {
    hide Render, ValidExpression;
    assert tasks[..k + 1][..k] == tasks[..k];
  }

  lemma {:induction false} RenderFails<R, A, V>(w: World<R, A, V>, tasks: seq<Aggregate>, k: nat, given: seq<A>)
    requires k <= |tasks| && RenderColumns(w, tasks[..k], given).None?
    ensures RenderColumns(w, tasks, given).None?
    decreases |tasks|
  {
    if k < |tasks| {
      assert tasks[..|tasks| - 1][..k] == tasks[..k];
      RenderFails(w, tasks[..|tasks| - 1], k, given);
    } else {
      assert tasks[..k] == tasks;
    }
  }

  // ---------------------------------------------------------------- executing

  /** The fragment, with the arguments its placeholders number. */
  predicate True<R, A, V>(w: World<R, A, V>, f: Fragment, args: seq<A>, row: R) {
    1 <= f.first && f.first - 1 + f.arity <= |args| && w.test(f.template, args[f.first - 1..f.first - 1 + f.arity], row)
  }

  predicate AllTrue<R, A, V>(w: World<R, A, V>, fs: seq<Fragment>, args: seq<A>, row: R) {
    forall i :: 0 <= i < |fs| ==> True(w, fs[i], args, row)
  }

  function Filter<R, A, V>(w: World<R, A, V>, fs: seq<Fragment>, args: seq<A>, rows: seq<R>): seq<R>
    decreases |rows|
  {
    if rows == [] then []
    else
      var n := |rows| - 1;
      Filter(w, fs, args, rows[..n]) + (if AllTrue(w, fs, args, rows[n]) then [rows[n]] else [])
  }

  /** One value per column: the aggregate over the rows that pass WHERE and its FILTER. */
  function Execute<R, A, V>(w: World<R, A, V>, st: Statement<A>): (r: seq<V>)
    ensures |r| == |st.columns|
  {
    var rows := Filter(w, st.where_, st.args, w.rows(st.model));
    seq(|st.columns|, k requires 0 <= k < |st.columns| =>
      w.aggregate(st.columns[k].function_, st.columns[k].column, Filter(w, st.columns[k].filter, st.args, rows)))
  }

  /** The value of the task's own query. */
  function OwnQuery<R, A, V>(w: World<R, A, V>, a: Aggregate): V {
    var (where_, args) := Render(Values(w, a.conditions), 1);
    w.aggregate(a.function_, a.column, Filter(w, where_, args, w.rows(a.model)))
  }

  /** What the goroutine of a task on its own assigns. */
  function RunAlone<R, A, V>(w: World<R, A, V>, tasks: seq<Task>, i: nat): V
    requires i < |tasks|
  {
    match AggregateOf(i, tasks[i])
    case None => w.other(i)
    case Some(a) => OwnQuery(w, a)
  }

  // ---------------------------------------------------------------- what the tasks ask for

  /** The row passes every condition of every where() of the chain. */
  predicate Passes<R, A, V>(w: World<R, A, V>, q: Chain, row: R) {
    forall l, k :: 0 <= l < |q.links| && 0 <= k < |q.links[l].conditions| && q.links[l].conditions[k].Stable? ==>
      var c := w.condition(q.links[l].conditions[k].text); w.test(c.template, c.args, row)
  }

  function Selected<R, A, V>(w: World<R, A, V>, q: Chain, rows: seq<R>): seq<R>
    decreases |rows|
  {
    if rows == [] then []
    else Selected(w, q, rows[..|rows| - 1]) + if Passes(w, q, rows[|rows| - 1]) then [rows[|rows| - 1]] else []
  }

  /** The value a task asks for: for an aggregate, its call on the rows of the model that pass its chain. */
  function OwnValue<R, A, V>(w: World<R, A, V>, tasks: seq<Task>, i: nat): V
    requires i < |tasks|
  {
    if IsAggregate(tasks[i]) then
      var q := tasks[i].query.value;
      w.aggregate(q.terminal.method_, Aggregated(q.terminal), Selected(w, q, w.rows(q.model)))
    else w.other(i)
  }

  /** The row passes all these conditions. */
  predicate Meets<R, A, V>(w: World<R, A, V>, conditions: seq<string>, row: R) {
    forall c :: c in conditions ==> w.test(w.condition(c).template, w.condition(c).args, row)
  }

  function Meeting<R, A, V>(w: World<R, A, V>, conditions: seq<string>, rows: seq<R>): seq<R>
    decreases |rows|
  {
    if rows == [] then []
    else
      var n := |rows| - 1;
      Meeting(w, conditions, rows[..n]) + (if Meets(w, conditions, rows[n]) then [rows[n]] else [])
  }

  lemma {:induction false} PassesIsMeets<R, A, V>(w: World<R, A, V>, q: Chain, conditions: seq<string>, row: R)
    requires forall c :: c in conditions <==> Asks(q, c)
    ensures Passes(w, q, row) <==> Meets(w, conditions, row)
  {
    if Passes(w, q, row) {
      forall c | c in conditions ensures w.test(w.condition(c).template, w.condition(c).args, row) {
        assert Asks(q, c);
        var l, k :| 0 <= l < |q.links| && 0 <= k < |q.links[l].conditions| && q.links[l].conditions[k] == Stable(c);
        assert q.links[l].conditions[k].Stable?;
      }
    }
    if Meets(w, conditions, row) {
      forall l, k | 0 <= l < |q.links| && 0 <= k < |q.links[l].conditions| && q.links[l].conditions[k].Stable?
        ensures var c := w.condition(q.links[l].conditions[k].text); w.test(c.template, c.args, row)
      {
        assert q.links[l].conditions[k] == Stable(q.links[l].conditions[k].text);
        assert Asks(q, q.links[l].conditions[k].text);
      }
    }
  }

  lemma {:induction false} SelectedIsMeeting<R, A, V>(w: World<R, A, V>, q: Chain, conditions: seq<string>, rows: seq<R>)
    requires forall c :: c in conditions <==> Asks(q, c)
    ensures Selected(w, q, rows) == Meeting(w, conditions, rows)
    decreases |rows|
  {
    hide Passes, Meets, Asks;
    if rows != [] {
      SelectedIsMeeting(w, q, conditions, rows[..|rows| - 1]);
      PassesIsMeets(w, q, conditions, rows[|rows| - 1]);
    }
  }

  lemma {:induction false} SameSlice<A>(args: seq<A>, all: seq<A>, first: nat, i: nat, n: nat)
    requires first >= 1 && first - 1 + |args| <= |all| && all[first - 1..first - 1 + |args|] == args && i + n <= |args|
    ensures all[first - 1 + i..first - 1 + i + n] == args[i..i + n]
  {
    var found, own := all[first - 1 + i..first - 1 + i + n], args[i..i + n];
    forall j | 0 <= j < n ensures found[j] == own[j] {
      assert all[first - 1..first - 1 + |args|][i + j] == args[i + j];
    }
  }

  /** Placeholders find the arguments of their own condition, wherever the block starts. */
  lemma {:induction false} RenderedMeans<R, A, V>(w: World<R, A, V>, conditions: seq<string>, first: nat, all: seq<A>, row: R)
    requires first >= 1
    requires var (fs, args) := Render(Values(w, conditions), first);
      first - 1 + |args| <= |all| && all[first - 1..first - 1 + |args|] == args
    ensures AllTrue(w, Render(Values(w, conditions), first).0, all, row) <==> Meets(w, conditions, row)
    decreases |conditions|
  {
    hide Values, AllTrue, Meets, True, Render;
    if conditions == [] {
      NothingRendered(w, first, all, row);
    } else {
      var n := |conditions| - 1;
      var args := Render(Values(w, conditions), first).1;
      RenderSplit(w, conditions, first);
      var (front, before) := Render(Values(w, conditions[..n]), first);
      var c := w.condition(conditions[n]);
      SameSlice(args, all, first, 0, |before|);
      assert args[0..|before|] == before;
      RenderedMeans(w, conditions[..n], first, all, row);
      SameSlice(args, all, first, |before|, |c.args|);
      assert args[|before|..|before| + |c.args|] == c.args;
      LastTrue(w, front, Fragment(c.template, first + |before|, |c.args|), all, row);
      TrueMeans(w, c, first + |before|, all, row);
      MeetsSplit(w, conditions, row);
    }
  }

  lemma {:induction false} NothingRendered<R, A, V>(w: World<R, A, V>, first: nat, all: seq<A>, row: R)
    ensures AllTrue(w, Render(Values(w, []), first).0, all, row) && Meets(w, [], row)
  {
  }

  lemma {:induction false} RenderSplit<R, A, V>(w: World<R, A, V>, conditions: seq<string>, first: nat)
    requires conditions != []
    ensures var n := |conditions| - 1;
      var (front, before) := Render(Values(w, conditions[..n]), first);
      var c := w.condition(conditions[n]);
      Render(Values(w, conditions), first) == (front + [Fragment(c.template, first + |before|, |c.args|)], before + c.args)
  {
    var n := |conditions| - 1;
    assert Values(w, conditions)[..n] == Values(w, conditions[..n]);
  }

  lemma {:induction false} TrueMeans<R, A, V>(w: World<R, A, V>, c: Bound<A>, first: nat, all: seq<A>, row: R)
    requires 1 <= first && first - 1 + |c.args| <= |all| && all[first - 1..first - 1 + |c.args|] == c.args
    ensures True(w, Fragment(c.template, first, |c.args|), all, row) <==> w.test(c.template, c.args, row)
  {
  }

  lemma {:induction false} MeetsSplit<R, A, V>(w: World<R, A, V>, conditions: seq<string>, row: R)
    requires conditions != []
    ensures var n := |conditions| - 1;
      var c := w.condition(conditions[n]);
      Meets(w, conditions, row) <==> Meets(w, conditions[..n], row) && w.test(c.template, c.args, row)
  {
    var n := |conditions| - 1;
    assert conditions == conditions[..n] + [conditions[n]];
  }

  lemma {:induction false} LastTrue<R, A, V>(w: World<R, A, V>, front: seq<Fragment>, last: Fragment, all: seq<A>, row: R)
    ensures AllTrue(w, front + [last], all, row) <==> AllTrue(w, front, all, row) && True(w, last, all, row)
  {
    hide True;
    assert (front + [last])[|front|] == last;
    assert forall i :: 0 <= i < |front| ==> (front + [last])[i] == front[i];
  }

  lemma {:induction false} FilterMeans<R, A, V>(w: World<R, A, V>, conditions: seq<string>, first: nat, all: seq<A>, rows: seq<R>)
    requires first >= 1
    requires var (fs, args) := Render(Values(w, conditions), first);
      first - 1 + |args| <= |all| && all[first - 1..first - 1 + |args|] == args
    ensures Filter(w, Render(Values(w, conditions), first).0, all, rows) == Meeting(w, conditions, rows)
    decreases |rows|
  {
    hide Render, AllTrue, Meets;
    if rows != [] {
      FilterMeans(w, conditions, first, all, rows[..|rows| - 1]);
      RenderedMeans(w, conditions, first, all, rows[|rows| - 1]);
    }
  }

  /** Filtering twice is filtering by both lists of conditions, in any order and multiplicity. */
  lemma {:induction false} MeetingBoth<R, A, V>(w: World<R, A, V>, a: seq<string>, b: seq<string>, both: seq<string>, rows: seq<R>)
    requires forall c :: c in both <==> c in a || c in b
    ensures Meeting(w, b, Meeting(w, a, rows)) == Meeting(w, both, rows)
    decreases |rows|
  {
    hide Meets;
    if rows != [] {
      var n := |rows| - 1;
      MeetingBoth(w, a, b, both, rows[..n]);
      MeetsBoth(w, a, b, both, rows[n]);
      var kept := Meeting(w, a, rows[..n]);
      if Meets(w, a, rows[n]) {
        assert (kept + [rows[n]])[..|kept|] == kept;
      } else {
        assert kept + [] == kept;
      }
    }
  }

  lemma {:induction false} MeetsBoth<R, A, V>(w: World<R, A, V>, a: seq<string>, b: seq<string>, both: seq<string>, row: R)
    requires forall c :: c in both <==> c in a || c in b
    ensures Meets(w, both, row) <==> Meets(w, a, row) && Meets(w, b, row)
  {
  }

  // ---------------------------------------------------------------- the batch agrees with the queries

  /** The arguments of every filter are where its placeholders say. */
  lemma {:induction false} ColumnsMean<R, A, V>(w: World<R, A, V>, tasks: seq<Aggregate>, given: seq<A>, k: nat, all: seq<A>, rows: seq<R>)
    requires k < |tasks| && RenderColumns(w, tasks, given).Some?
    requires RenderColumns(w, tasks, given).value.1 <= all
    ensures var column := RenderColumns(w, tasks, given).value.0[k];
      && column.function_ == tasks[k].function_ && column.column == tasks[k].column
      && Filter(w, column.filter, all, rows) == Meeting(w, tasks[k].conditions, rows)
    decreases |tasks|
  {
    hide Render, Filter, Meeting, Values;
    var n := |tasks| - 1;
    var (columns, args) := RenderColumns(w, tasks[..n], given).value;
    var more := Render(Values(w, tasks[n].conditions), |args| + 1).1;
    assert args <= args + more <= all;
    if k < n {
      ColumnsMean(w, tasks[..n], given, k, all, rows);
    } else {
      assert all[|args|..|args| + |more|] == more by {
        assert all[..|args + more|] == args + more;
      }
      FilterMeans(w, tasks[n].conditions, |args| + 1, all, rows);
    }
  }

  lemma {:induction false} ColumnsExtend<R, A, V>(w: World<R, A, V>, tasks: seq<Aggregate>, given: seq<A>)
    requires forall k :: 0 <= k < |tasks| ==> ValidExpression(tasks[k].function_, tasks[k].column)
    ensures RenderColumns(w, tasks, given).Some? && given <= RenderColumns(w, tasks, given).value.1
    decreases |tasks|
  {
    hide Render, Values;
    if tasks != [] {
      ColumnsExtend(w, tasks[..|tasks| - 1], given);
    }
  }

  /** An aggregate the compiler accepts is one the statement builder accepts. */
  lemma {:induction false} AcceptedIsValid(i: nat, task: Task)
    requires AggregateOf(i, task).Some?
    ensures var a := AggregateOf(i, task).value; a.index == i && ValidExpression(a.function_, a.column)
  {
  }

  /** The fused form of the aggregates of one model. */
  ghost predicate IsFusion(g: Group, tasks: seq<Task>) {
    var own := OnModel(tasks, |tasks|, g.model);
    |own| >= 2 && g == Factored(Group(g.model, [], own))
  }

  lemma {:induction false} OnModelSound(tasks: seq<Task>, n: nat, model: string, o: nat)
    requires n <= |tasks| && o < |OnModel(tasks, n, model)|
    ensures var a := OnModel(tasks, n, model)[o];
      a.index < n && AggregateOf(a.index, tasks[a.index]) == Some(a) && a.model == model
    ensures forall p :: 0 <= p < o ==> OnModel(tasks, n, model)[p].index < OnModel(tasks, n, model)[o].index
    decreases n
  {
    hide AggregateOf;
    if n > 0 {
      if AggregateOf(n - 1, tasks[n - 1]).Some? {
        AcceptedIsValid(n - 1, tasks[n - 1]);
      }
      var front := OnModel(tasks, n - 1, model);
      if o < |front| {
        OnModelSound(tasks, n - 1, model, o);
      } else {
        forall p | 0 <= p < |front| ensures front[p].index < n - 1 {
          OnModelSound(tasks, n - 1, model, p);
        }
      }
    }
  }

  /** Fusion preserves meaning: the batch executes, and slot `k` holds the value of the query of task `k`. */
  lemma {:induction false} BatchMeans<R, A, V>(w: World<R, A, V>, g: Group, tasks: seq<Task>, k: nat)
    requires IsFusion(g, tasks) && k < |g.tasks|
    ensures BatchStatement(w, g).Some? && |BatchStatement(w, g).value.columns| == |g.tasks|
    ensures g.tasks[k].index < |tasks|
    ensures Execute(w, BatchStatement(w, g).value)[k] == OwnValue(w, tasks, g.tasks[k].index)
  {
    hide Render, Filter, Meeting, Values, AggregateOf, RenderColumns, Common, OnModel, DropUpTo, OwnValue;
    var own := OnModel(tasks, |tasks|, g.model);
    forall o | 0 <= o < |own| ensures ValidExpression(g.tasks[o].function_, g.tasks[o].column) {
      OnModelSound(tasks, |tasks|, g.model, o);
      AcceptedIsValid(own[o].index, tasks[own[o].index]);
    }
    var args := Render(Values(w, g.common), 1).1;
    ColumnsExtend(w, g.tasks, args);
    var st := BatchStatement(w, g).value;
    var rows := w.rows(g.model);
    assert args <= st.args;
    FilterMeans(w, g.common, 1, st.args, rows);
    ColumnsMean(w, g.tasks, args, k, st.args, Meeting(w, g.common, rows));
    OnModelSound(tasks, |tasks|, g.model, k);
    ConditionsSplit(own, k);
    MeetingBoth(w, g.common, g.tasks[k].conditions, own[k].conditions, rows);
    AggregateMeans(w, tasks, own[k].index);
  }

  /** A query of its own asks the database for the aggregate of the rows that meet its conditions. */
  lemma {:induction false} OwnQueryMeans<R, A, V>(w: World<R, A, V>, a: Aggregate)
    ensures OwnQuery(w, a) == w.aggregate(a.function_, a.column, Meeting(w, a.conditions, w.rows(a.model)))
  {
    hide Render, Filter, Meeting, Values;
    var args := Render(Values(w, a.conditions), 1).1;
    FilterMeans(w, a.conditions, 1, args, w.rows(a.model));
  }

  /** What the compiler makes of an aggregate asks for the task's value. */
  lemma {:induction false} AggregateMeans<R, A, V>(w: World<R, A, V>, tasks: seq<Task>, i: nat)
    requires i < |tasks|
    ensures AggregateOf(i, tasks[i]).Some? ==>
      var a := AggregateOf(i, tasks[i]).value;
      OwnValue(w, tasks, i) == w.aggregate(a.function_, a.column, Meeting(w, a.conditions, w.rows(a.model)))
    ensures AggregateOf(i, tasks[i]).None? ==> OwnValue(w, tasks, i) == w.other(i)
  {
    assert IsAggregate(tasks[i]) ==> tasks[i].query.Some?;
    hide AggregateOf, IsAggregate, Selected, Meeting, Asks;
    AggregateIff(i, tasks[i]);
    if AggregateOf(i, tasks[i]).Some? {
      var a := AggregateOf(i, tasks[i]).value;
      SelectedIsMeeting(w, tasks[i].query.value, a.conditions, w.rows(a.model));
    }
  }

  /** A task run on its own gets its value. */
  lemma {:induction false} AloneMeans<R, A, V>(w: World<R, A, V>, tasks: seq<Task>, i: nat)
    requires i < |tasks|
    ensures RunAlone(w, tasks, i) == OwnValue(w, tasks, i)
  {
    hide AggregateOf, OwnQuery, OwnValue;
    AggregateMeans(w, tasks, i);
    if AggregateOf(i, tasks[i]).Some? {
      OwnQueryMeans(w, AggregateOf(i, tasks[i]).value);
    }
  }

  lemma {:induction false} ConditionsSplit(own: seq<Aggregate>, k: nat)
    requires k < |own|
    ensures forall c :: c in own[k].conditions <==> c in Common(own) || c in Residual(own[k], Common(own)).conditions
  {
    FactoringExact(own, k);
    hide Common, Residual, Shared;
    var all := multiset(own[k].conditions);
    forall c ensures c in own[k].conditions <==> c in Common(own) || c in Residual(own[k], Common(own)).conditions {
      assert c in own[k].conditions <==> c in all;
    }
  }

  // ---------------------------------------------------------------- the whole await block

  /** The variables the goroutines assign, by task; None when a batch cannot be built. */
  function Run<R, A, V>(w: World<R, A, V>, tasks: seq<Task>, out: seq<Emission>): Option<map<nat, V>>
    decreases |out|
  {
    if out == [] then Some(map[])
    else
      match Run(w, tasks, out[..|out| - 1])
      case None => None
      case Some(m) =>
        match out[|out| - 1]
        case Single(i) => if i < |tasks| then Some(m[i := RunAlone(w, tasks, i)]) else None
        case Batch(g) =>
          match BatchStatement(w, g)
          case None => None
          case Some(st) => Some(Assign(m, g.tasks, Execute(w, st)))
  }

  /** `varName = result[index]` for every task of the group. */
  function Assign<V>(m: map<nat, V>, tasks: seq<Aggregate>, values: seq<V>): map<nat, V>
    decreases |tasks|
  {
    if tasks == [] || |values| < |tasks| then m
    else
      var n := |tasks| - 1;
      Assign(m, tasks[..n], values)[tasks[n].index := values[n]]
  }

  /** Each goroutine is a task of the block or a fusion of such tasks. */
  ghost predicate Faithful(out: seq<Emission>, tasks: seq<Task>) {
    forall e :: 0 <= e < |out| ==>
      match out[e] case Single(i) => i < |tasks| case Batch(g) => IsFusion(g, tasks)
  }

  ghost predicate Right<R, A, V>(w: World<R, A, V>, tasks: seq<Task>, m: map<nat, V>) {
    forall i :: i in m ==> i < |tasks| && m[i] == OwnValue(w, tasks, i)
  }

  lemma {:induction false} AssignRight<R, A, V>(w: World<R, A, V>, tasks: seq<Task>, m: map<nat, V>, some: seq<Aggregate>, values: seq<V>)
    requires Right(w, tasks, m) && |some| <= |values|
    requires forall k :: 0 <= k < |some| ==> some[k].index < |tasks| && values[k] == OwnValue(w, tasks, some[k].index)
    ensures var r := Assign(m, some, values);
      Right(w, tasks, r) && forall i :: i in r <==> i in m || i in Indexes(some)
    decreases |some|
  {
    hide OwnValue;
    if some != [] {
      var n := |some| - 1;
      AssignRight(w, tasks, m, some[..n], values);
      assert Indexes(some) == Indexes(some[..n]) + [some[n].index];
    }
  }

  lemma {:induction false} RunRight<R, A, V>(w: World<R, A, V>, tasks: seq<Task>, out: seq<Emission>)
    requires Faithful(out, tasks)
    ensures var r := Run(w, tasks, out);
      && r.Some? && Right(w, tasks, r.value)
      && forall i :: i in r.value <==> i in AllSlots(out)
    decreases |out|
  {
    hide OwnValue, RunAlone, IsFusion, BatchStatement, Assign, Execute;
    if out != [] {
      var front, e := out[..|out| - 1], out[|out| - 1];
      RunRight(w, tasks, front);
      match e
      case Single(i) =>
        AloneMeans(w, tasks, i);
      case Batch(g) =>
        forall k | 0 <= k < |g.tasks|
          ensures BatchStatement(w, g).Some? && |BatchStatement(w, g).value.columns| == |g.tasks|
          ensures g.tasks[k].index < |tasks| && Execute(w, BatchStatement(w, g).value)[k] == OwnValue(w, tasks, g.tasks[k].index)
        {
          BatchMeans(w, g, tasks, k);
        }
        FusionNonEmpty(g, tasks);
        assert BatchStatement(w, g).Some? && |BatchStatement(w, g).value.columns| == |g.tasks| by {
          BatchMeans(w, g, tasks, 0);
        }
        AssignRight(w, tasks, Run(w, tasks, front).value, g.tasks, Execute(w, BatchStatement(w, g).value));
    }
  }

  lemma {:induction false} FusionNonEmpty(g: Group, tasks: seq<Task>)
    requires IsFusion(g, tasks)
    ensures |g.tasks| >= 2
  {
  }

  /** Whatever the data and whatever the aggregates, fusing leaves every variable as it would be
      without: each task's variable is assigned, with the value of its own query. */
  lemma {:induction false} FusionPreservesMeaning<R, A, V>(w: World<R, A, V>, tasks: seq<Task>, groups: seq<Group>)
    requires WellGrouped(groups, |tasks|) && forall g :: 0 <= g < |groups| ==> IsFusion(groups[g], tasks)
    ensures var r := Run(w, tasks, Emissions(groups, |tasks|));
      && r.Some?
      && (forall i :: i in r.value <==> 0 <= i < |tasks|)
      && forall i :: 0 <= i < |tasks| ==> r.value[i] == OwnValue(w, tasks, i)
  {
    var out := Emissions(groups, |tasks|);
    EmissionsFaithful(tasks, groups, |tasks|);
    RunRight(w, tasks, out);
    forall i: nat ensures i in AllSlots(out) <==> i < |tasks| {
      EachTaskOnce(groups, |tasks|, i);
      assert i in AllSlots(out) <==> i in multiset(AllSlots(out));
    }
    hide OwnValue, Run, AllSlots, Emissions, WellGrouped, IsFusion;
    assert forall i :: i in Run(w, tasks, out).value ==> i in AllSlots(out);
  }

  lemma {:induction false} EmissionsFaithful(tasks: seq<Task>, groups: seq<Group>, n: nat)
    requires n <= |tasks| && forall g :: 0 <= g < |groups| ==> IsFusion(groups[g], tasks)
    ensures Faithful(Emissions(groups, n), tasks)
    decreases n
  {
    hide IsFusion, Contains;
    if n > 0 {
      EmissionsFaithful(tasks, groups, n - 1);
    }
  }

  // ---------------------------------------------------------------- the groups are fusions

  ghost predicate MetBefore(groups: seq<Group>, k: nat, model: string)
    requires k <= |groups|
  {
    exists g :: 0 <= g < k && groups[g].model == model
  }

  /** Fusions, of models among those of the first `k` groups, no model twice. */
  ghost predicate FusedUpTo(fused: seq<Group>, groups: seq<Group>, tasks: seq<Task>, k: nat)
    requires k <= |groups|
  {
    && (forall f :: 0 <= f < |fused| ==> IsFusion(fused[f], tasks))
    && (forall f :: 0 <= f < |fused| ==> MetBefore(groups, k, fused[f].model))
    && (forall f, h :: 0 <= f < h < |fused| ==> fused[f].model != fused[h].model)
  }

  lemma {:induction false} FuseOne(fused: seq<Group>, groups: seq<Group>, tasks: seq<Task>, k: nat)
    requires GroupedByModel(groups, tasks, |tasks|) && k < |groups| && FusedUpTo(fused, groups, tasks, k)
    ensures FusedUpTo(fused, groups, tasks, k + 1)
    ensures |groups[k].tasks| >= 2 ==> FusedUpTo(fused + [Factored(groups[k])], groups, tasks, k + 1)
  {
    hide OnModel, Common, Residuals;
    var g := groups[k];
    forall f | 0 <= f < |fused| ensures MetBefore(groups, k + 1, fused[f].model) && fused[f].model != g.model {
      assert MetBefore(groups, k, fused[f].model);
      var h :| 0 <= h < k && groups[h].model == fused[f].model;
    }
    if |g.tasks| >= 2 {
      assert g == Group(g.model, [], g.tasks);
      assert MetBefore(groups, k + 1, g.model);
      assert IsFusion(Factored(g), tasks);
    }
  }

  lemma {:induction false} FinalizedFuse(groups: seq<Group>, tasks: seq<Task>, k: nat)
    requires GroupedByModel(groups, tasks, |tasks|) && k <= |groups|
    ensures FusedUpTo(Finalized(groups[..k]), groups, tasks, k)
    decreases k
  {
    hide GroupedByModel, FusedUpTo, Factored;
    if k == 0 {
      NoneFused(groups, tasks);
    } else {
      assert groups[..k][..k - 1] == groups[..k - 1];
      FinalizedFuse(groups, tasks, k - 1);
      var front := Finalized(groups[..k - 1]);
      FuseOne(front, groups, tasks, k - 1);
      assert front + [] == front;
    }
  }

  lemma {:induction false} NoneFused(groups: seq<Group>, tasks: seq<Task>)
    ensures FusedUpTo(Finalized(groups[..0]), groups, tasks, 0)
  {
  }

  lemma {:induction false} FusionsWellGrouped(groups: seq<Group>, tasks: seq<Task>)
    requires forall f :: 0 <= f < |groups| ==> IsFusion(groups[f], tasks)
    requires forall f, h :: 0 <= f < h < |groups| ==> groups[f].model != groups[h].model
    ensures WellGrouped(groups, |tasks|)
  {
    hide IsFusion, Increasing, AggregateOf;
    forall f | 0 <= f < |groups| ensures groups[f].tasks != [] && Increasing(groups[f].tasks, |tasks|) {
      FusionNonEmpty(groups[f], tasks);
      FusionIncreasing(groups[f], tasks);
    }
    forall f, h, i | 0 <= f < h < |groups| && Contains(groups[f], i) ensures !Contains(groups[h], i) {
      FusionModel(groups[f], tasks, i);
      FusionModel(groups[h], tasks, i);
    }
  }

  lemma {:induction false} FusionIncreasing(g: Group, tasks: seq<Task>)
    requires IsFusion(g, tasks)
    ensures Increasing(g.tasks, |tasks|)
  {
    hide OnModel, Common, DropUpTo, AggregateOf;
    var own := OnModel(tasks, |tasks|, g.model);
    forall o | 0 <= o < |own|
      ensures g.tasks[o].index == own[o].index < |tasks| && forall p :: 0 <= p < o ==> own[p].index < own[o].index
    {
      OnModelSound(tasks, |tasks|, g.model, o);
    }
  }

  lemma {:induction false} FusionModel(g: Group, tasks: seq<Task>, i: nat)
    requires IsFusion(g, tasks)
    ensures Contains(g, i) ==>
      i < |tasks| && AggregateOf(i, tasks[i]).Some? && AggregateOf(i, tasks[i]).value.model == g.model
  {
    hide OnModel, Common, DropUpTo, AggregateOf;
    var own := OnModel(tasks, |tasks|, g.model);
    if Contains(g, i) {
      var o :| 0 <= o < |g.tasks| && g.tasks[o].index == i;
      OnModelSound(tasks, |tasks|, g.model, o);
      assert own[o].index == i;
    }
  }
}
