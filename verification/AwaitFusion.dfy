/**
 Fusing the aggregate queries of an await block: which tasks are fused, the conditions factored out
 of a group, and the goroutines emitted.
 */
module AwaitFusion {
  import opened Wrappers

  /** A condition is stable when the compiler knows that evaluating it twice gives the same result;
      equal texts then denote equal conditions. */
  datatype Condition = Stable(text: string) | Unstable

  datatype Link = Link(method_: string, conditions: seq<Condition>)

  /** The last call of the chain: its number of arguments and the field its lambda selects, if any. */
  datatype Terminal = Terminal(method_: string, args: nat, field: string)

  /** A query: the model it starts from, whether that is a local model, and its calls. */
  datatype Chain = Chain(model: string, local: bool, links: seq<Link>, terminal: Terminal)

  /** `query` is None for an expression that is no call chain on a model. */
  datatype Task = Task(query: Option<Chain>)

  datatype Aggregate = Aggregate(index: nat, model: string, function_: string, column: string, conditions: seq<string>)

  datatype Group = Group(model: string, common: seq<string>, tasks: seq<Aggregate>)

  /** A goroutine: one task on its own, or one batched query. */
  datatype Emission = Single(index: nat) | Batch(group: Group)

  // ---------------------------------------------------------------- which tasks are aggregates

  /** The aggregated column, "" for a count. */
  function TerminalColumn(t: Terminal): Option<string> {
    if t.method_ == "count" then (if t.args == 0 then Some("") else None)
    else if t.method_ in ["sum", "avg", "min", "max"] then (if t.args == 1 && t.field != "" then Some(t.field) else None)
    else None
  }

  function Texts(conditions: seq<Condition>): Option<seq<string>>
    decreases |conditions|
  {
    if conditions == [] then Some([])
    else
      var n := |conditions| - 1;
      match Texts(conditions[..n])
      case None => None
      case Some(front) => if conditions[n].Stable? then Some(front + [conditions[n].text]) else None
  }

  /** All conditions of the chain in order, if every call is a where() of stable conditions. */
  function ConditionsOf(links: seq<Link>): Option<seq<string>>
    decreases |links|
  {
    if links == [] then Some([])
    else
      var n := |links| - 1;
      match ConditionsOf(links[..n])
      case None => None
      case Some(front) =>
        if links[n].method_ != "where" then None
        else match Texts(links[n].conditions)
          case None => None
          case Some(more) => Some(front + more)
  }

  function AggregateOf(index: nat, task: Task): Option<Aggregate> {
    if task.query.None? || !task.query.value.local then None
    else
      var q := task.query.value;
      match TerminalColumn(q.terminal)
      case None => None
      case Some(column) =>
        match ConditionsOf(q.links)
        case None => None
        case Some(conditions) => Some(Aggregate(index, q.model, q.terminal.method_, column, conditions))
  }

  /** The aggregates on one model among the first `n` tasks. */
  function OnModel(tasks: seq<Task>, n: nat, model: string): seq<Aggregate>
    requires n <= |tasks|
  {
    if n == 0 then []
    else
      var front := OnModel(tasks, n - 1, model);
      match AggregateOf(n - 1, tasks[n - 1])
      case None => front
      case Some(a) => if a.model == model then front + [a] else front
  }

  /** One group for every model with aggregates, holding all of them in order. */
  ghost predicate GroupedByModel(groups: seq<Group>, tasks: seq<Task>, n: nat)
    requires n <= |tasks|
  {
    && (forall g :: 0 <= g < |groups| ==>
      groups[g].tasks == OnModel(tasks, n, groups[g].model) && groups[g].tasks != [] && groups[g].common == [])
    && (forall g, h :: 0 <= g < h < |groups| ==> groups[g].model != groups[h].model)
    && (forall i :: 0 <= i < n && AggregateOf(i, tasks[i]).Some? ==>
      exists g :: 0 <= g < |groups| && groups[g].model == AggregateOf(i, tasks[i]).value.model)
  }

  // ---------------------------------------------------------------- factoring conditions

  /** The conditions all tasks share, with multiplicity. */
  function Shared(tasks: seq<Aggregate>): multiset<string>
    requires tasks != []
    decreases |tasks|
  {
    var n := |tasks| - 1;
    if n == 0 then multiset(tasks[0].conditions) else Shared(tasks[..n]) * multiset(tasks[n].conditions)
  }

  /** The first occurrences of each condition, up to the given multiplicity. */
  function KeepUpTo(conditions: seq<string>, limit: multiset<string>): (kept: seq<string>)
    ensures |kept| <= |conditions|
    decreases |conditions|
  {
    if conditions == [] then []
    else
      var n := |conditions| - 1;
      var front := KeepUpTo(conditions[..n], limit);
      if multiset(front)[conditions[n]] < limit[conditions[n]] then front + [conditions[n]] else front
  }

  /** What is left after dropping the first occurrences, up to the given multiplicity. */
  function DropUpTo(conditions: seq<string>, limit: multiset<string>): seq<string>
    decreases |conditions|
  {
    if conditions == [] then []
    else
      var c := conditions[0];
      if limit[c] > 0 then DropUpTo(conditions[1..], limit[c := limit[c] - 1]) else [c] + DropUpTo(conditions[1..], limit)
  }

  function Common(tasks: seq<Aggregate>): seq<string>
    requires tasks != []
  {
    KeepUpTo(tasks[0].conditions, Shared(tasks))
  }

  function Residual(a: Aggregate, common: seq<string>): Aggregate {
    a.(conditions := DropUpTo(a.conditions, multiset(common)))
  }

  function Residuals(tasks: seq<Aggregate>, common: seq<string>): (r: seq<Aggregate>)
    ensures |r| == |tasks|
  {
    seq(|tasks|, i requires 0 <= i < |tasks| => Residual(tasks[i], common))
  }

  function Factored(g: Group): Group
    requires g.tasks != []
  {
    Group(g.model, Common(g.tasks), Residuals(g.tasks, Common(g.tasks)))
  }

  /** Groups of a single task are dissolved, the others factored. */
  function Finalized(groups: seq<Group>): seq<Group>
    decreases |groups|
  {
    if groups == [] then []
    else
      var n := |groups| - 1;
      Finalized(groups[..n]) + (if |groups[n].tasks| < 2 then [] else [Factored(groups[n])])
  }

  lemma {:induction false} SharedWithin(tasks: seq<Aggregate>, i: nat)
    requires i < |tasks|
    ensures Shared(tasks) <= multiset(tasks[i].conditions)
    decreases |tasks|
  {
    var n := |tasks| - 1;
    if 0 < n && i < n {
      SharedWithin(tasks[..n], i);
    }
  }

  /** Exactness of the intersection: no condition is shared more often. */
  lemma {:induction false} SharedIsGreatest(tasks: seq<Aggregate>, m: multiset<string>)
    requires tasks != [] && forall i :: 0 <= i < |tasks| ==> m <= multiset(tasks[i].conditions)
    ensures m <= Shared(tasks)
    decreases |tasks|
  {
    var n := |tasks| - 1;
    if n > 0 {
      SharedIsGreatest(tasks[..n], m);
      assert m <= multiset(tasks[n].conditions);
    }
  }

  lemma {:induction false} KeepStep(conditions: seq<string>, i: nat, limit: multiset<string>)
    requires i < |conditions|
    ensures var front := KeepUpTo(conditions[..i], limit);
      KeepUpTo(conditions[..i + 1], limit) == if multiset(front)[conditions[i]] < limit[conditions[i]] then front + [conditions[i]] else front
  {
    assert conditions[..i + 1][..i] == conditions[..i];
  }

  lemma {:induction false} AppendedCount(s: seq<string>, c: string, d: string)
    ensures multiset(s + [c])[d] == multiset(s)[d] + if c == d then 1 else 0
  {
  }

  /** How often one condition is kept. */
  lemma {:induction false} KeepCount(conditions: seq<string>, i: nat, limit: multiset<string>, d: string)
    requires i <= |conditions|
    ensures multiset(KeepUpTo(conditions[..i], limit))[d] == var n := multiset(conditions[..i])[d]; if n < limit[d] then n else limit[d]
  {
    hide KeepUpTo;
    if i > 0 {
      var front, c := KeepUpTo(conditions[..i - 1], limit), conditions[i - 1];
      KeepCount(conditions, i - 1, limit, d);
      KeepStep(conditions, i - 1, limit);
      AppendedCount(front, c, d);
      AppendedCount(conditions[..i - 1], c, d);
      assert conditions[..i] == conditions[..i - 1] + [c];
    }
  }

  lemma {:induction false} KeepCounts(conditions: seq<string>, limit: multiset<string>)
    ensures multiset(KeepUpTo(conditions, limit)) == multiset(conditions) * limit
  {
    hide KeepUpTo;
    var kept := multiset(KeepUpTo(conditions, limit));
    assert conditions[..|conditions|] == conditions;
    forall d ensures kept[d] == (multiset(conditions) * limit)[d] {
      KeepCount(conditions, |conditions|, limit, d);
    }
  }

  lemma {:induction false} DropCounts(conditions: seq<string>, limit: multiset<string>)
    ensures multiset(DropUpTo(conditions, limit)) == multiset(conditions) - limit
    decreases |conditions|
  {
    if conditions != [] {
      var c := conditions[0];
      assert conditions == [c] + conditions[1..];
      if limit[c] > 0 {
        DropCounts(conditions[1..], limit[c := limit[c] - 1]);
      } else {
        DropCounts(conditions[1..], limit);
      }
    }
  }

  lemma {:induction false} RestIsExact(own: seq<string>, common: seq<string>, rest: seq<string>)
    requires multiset(common) <= multiset(own) && multiset(rest) == multiset(own) - multiset(common)
    ensures multiset(common) + multiset(rest) == multiset(own) && |common| + |rest| == |own|
  {
    var a, b, c := multiset(own), multiset(common), multiset(rest);
    assert b + (a - b) == a;
    assert |b + c| == |b| + |c|;
    assert |a| == |own| && |b| == |common| && |c| == |rest|;
  }

  /** Factoring is exact: the common conditions are the multiset intersection over all tasks, and
      with its residual every task has its own conditions back. */
  lemma {:induction false} FactoringExact(tasks: seq<Aggregate>, i: nat)
    requires i < |tasks|
    ensures multiset(Common(tasks)) == Shared(tasks)
    ensures multiset(Common(tasks)) + multiset(Residual(tasks[i], Common(tasks)).conditions) == multiset(tasks[i].conditions)
    ensures |Common(tasks)| + |Residual(tasks[i], Common(tasks)).conditions| == |tasks[i].conditions|
  {
    SharedWithin(tasks, 0);
    SharedWithin(tasks, i);
    KeepCounts(tasks[0].conditions, Shared(tasks));
    hide KeepUpTo, DropUpTo, Shared;
    var common, own := Common(tasks), tasks[i].conditions;
    DropCounts(own, multiset(common));
    RestIsExact(own, common, DropUpTo(own, multiset(common)));
  }

  // ---------------------------------------------------------------- what is emitted

  predicate Contains(g: Group, index: nat) {
    exists o :: 0 <= o < |g.tasks| && g.tasks[o].index == index
  }

  /** The first group from `k` on that holds the task. */
  function Holder(groups: seq<Group>, index: nat, k: nat): (r: Option<nat>)
    requires k <= |groups|
    ensures r.Some? ==> k <= r.value < |groups| && Contains(groups[r.value], index)
    ensures r.None? ==> forall g :: k <= g < |groups| ==> !Contains(groups[g], index)
    decreases |groups| - k
  {
    if k == |groups| then None
    else if Contains(groups[k], index) then Some(k)
    else Holder(groups, index, k + 1)
  }

  /** A group is emitted at its first task, its other tasks not at all. */
  function Emissions(groups: seq<Group>, n: nat): seq<Emission> {
    if n == 0 then []
    else
      Emissions(groups, n - 1) +
      match Holder(groups, n - 1, 0)
      case None => [Single(n - 1)]
      case Some(g) =>
        var group := groups[g];
        if |group.tasks| > 0 && group.tasks[0].index == n - 1 then [Batch(group)] else []
  }

  function Indexes(tasks: seq<Aggregate>): (r: seq<nat>)
    ensures |r| == |tasks| && forall o :: 0 <= o < |r| ==> r[o] == tasks[o].index
  {
    seq(|tasks|, o requires 0 <= o < |tasks| => tasks[o].index)
  }

  /** The tasks an emission assigns. */
  function Slots(e: Emission): seq<nat> {
    match e case Single(i) => [i] case Batch(g) => Indexes(g.tasks)
  }

  function AllSlots(out: seq<Emission>): seq<nat>
    decreases |out|
  {
    if out == [] then [] else AllSlots(out[..|out| - 1]) + Slots(out[|out| - 1])
  }

  ghost predicate Increasing(tasks: seq<Aggregate>, n: nat) {
    && (forall o :: 0 <= o < |tasks| ==> tasks[o].index < n)
    && (forall o, p :: 0 <= o < p < |tasks| ==> tasks[o].index < tasks[p].index)
  }

  /** Non-empty groups of increasing task indexes below `n`, no task in two groups. */
  ghost predicate WellGrouped(groups: seq<Group>, n: nat) {
    && (forall g :: 0 <= g < |groups| ==> groups[g].tasks != [] && Increasing(groups[g].tasks, n))
    && (forall g, h, i :: 0 <= g < h < |groups| && Contains(groups[g], i) ==> !Contains(groups[h], i))
  }

  /** The task has been assigned by the goroutines emitted for the first `n` tasks. */
  ghost predicate Due(groups: seq<Group>, i: nat, n: nat) {
    match Holder(groups, i, 0)
    case None => i < n
    case Some(g) => |groups[g].tasks| > 0 && groups[g].tasks[0].index < n
  }

  lemma {:induction false} IndexCounts(tasks: seq<Aggregate>, n: nat, i: nat)
    requires Increasing(tasks, n)
    ensures multiset(Indexes(tasks))[i] == if exists o :: 0 <= o < |tasks| && tasks[o].index == i then 1 else 0
    decreases |tasks|
  {
    if tasks == [] {
      assert Indexes(tasks) == [];
    } else {
      var k := |tasks| - 1;
      IndexCounts(tasks[..k], n, i);
      assert Indexes(tasks) == Indexes(tasks[..k]) + [tasks[k].index];
    }
  }

  lemma {:induction false} AllSlotsAppend(out: seq<Emission>, e: Emission)
    ensures AllSlots(out + [e]) == AllSlots(out) + Slots(e)
  {
    assert (out + [e])[..|out|] == out;
  }

  lemma {:induction false} HolderIs(groups: seq<Group>, n: nat, g: nat, i: nat)
    requires WellGrouped(groups, n) && g < |groups| && Contains(groups[g], i)
    ensures Holder(groups, i, 0) == Some(g)
  {
    hide Contains;
    assert forall h :: 0 <= h < g ==> !Contains(groups[h], i);
    assert forall h :: g < h < |groups| ==> !Contains(groups[h], i);
  }

  lemma {:induction false} DueStep(groups: seq<Group>, n: nat, k: nat, i: nat)
    requires WellGrouped(groups, n)
    ensures Holder(groups, k, 0).None? ==> (Due(groups, i, k + 1) <==> Due(groups, i, k) || i == k)
    ensures Holder(groups, k, 0).Some? ==>
      var g := groups[Holder(groups, k, 0).value];
      && g.tasks != [] && Increasing(g.tasks, n)
      && (g.tasks[0].index != k ==> (Due(groups, i, k + 1) <==> Due(groups, i, k)))
      && (g.tasks[0].index == k ==>
        && (Due(groups, i, k + 1) <==> Due(groups, i, k) || Contains(g, i))
        && (Contains(g, i) ==> !Due(groups, i, k)))
  {
    var holder := Holder(groups, i, 0);
    if holder.Some? {
      var g := holder.value;
      if groups[g].tasks[0].index == k {
        assert Contains(groups[g], k);
        HolderIs(groups, n, g, k);
      }
    }
    if Holder(groups, k, 0).Some? {
      var g := Holder(groups, k, 0).value;
      if Contains(groups[g], i) {
        HolderIs(groups, n, g, i);
      }
    }
  }

  lemma {:induction false} SlotCounts(groups: seq<Group>, n: nat, k: nat, i: nat)
    requires WellGrouped(groups, n) && k <= n
    ensures multiset(AllSlots(Emissions(groups, k)))[i] == if Due(groups, i, k) then 1 else 0
    decreases k
  {
    hide Due, Contains, Holder, WellGrouped, Increasing, AllSlots, Slots, Indexes;
    if k == 0 {
      NothingDue(groups, i);
      NoSlots();
    } else {
      SlotCounts(groups, n, k - 1, i);
      DueStep(groups, n, k - 1, i);
      var front := Emissions(groups, k - 1);
      match Holder(groups, k - 1, 0)
      case None =>
        AllSlotsAppend(front, Single(k - 1));
        SingleSlot(k - 1);
        NotYetDue(groups, k - 1);
      case Some(g) =>
        if groups[g].tasks[0].index == k - 1 {
          AllSlotsAppend(front, Batch(groups[g]));
          GroupCounts(groups[g], n, i);
          assert multiset(AllSlots(front) + Slots(Batch(groups[g])))[i] == multiset(AllSlots(front))[i] + multiset(Slots(Batch(groups[g])))[i];
        } else {
          assert front + [] == front;
        }
    }
  }

  lemma {:induction false} GroupCounts(g: Group, n: nat, i: nat)
    requires Increasing(g.tasks, n)
    ensures multiset(Slots(Batch(g)))[i] == if Contains(g, i) then 1 else 0
  {
    IndexCounts(g.tasks, n, i);
  }

  lemma {:induction false} NoSlots()
    ensures AllSlots([]) == []
  {
  }

  lemma {:induction false} SingleSlot(i: nat)
    ensures Slots(Single(i)) == [i]
  {
  }

  lemma {:induction false} NothingDue(groups: seq<Group>, i: nat)
    ensures !Due(groups, i, 0)
  {
  }

  lemma {:induction false} NotYetDue(groups: seq<Group>, k: nat)
    requires Holder(groups, k, 0).None?
    ensures !Due(groups, k, k)
  {
  }

  /** Every task is assigned by exactly one goroutine, alone or in one group. */
  lemma {:induction false} EachTaskOnce(groups: seq<Group>, n: nat, i: nat)
    requires WellGrouped(groups, n)
    ensures multiset(AllSlots(Emissions(groups, n)))[i] == if i < n then 1 else 0
  {
    SlotCounts(groups, n, n, i);
    var holder := Holder(groups, i, 0);
    if holder.Some? {
      var g := groups[holder.value];
      var o :| 0 <= o < |g.tasks| && g.tasks[o].index == i;
      assert g.tasks[0].index <= i < n;
    }
  }
}
