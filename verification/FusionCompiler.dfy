/**
 The fusion pass as the compiler runs it: count maps that are decremented, groups collected by model
 and filtered in place, goroutines emitted in task order.
 */
module FusionCompiler {
  import opened Wrappers
  import opened AwaitFusion
  import opened FusionQueries
  import opened FusionMeaning

  // ---------------------------------------------------------------- conditions

  /** The count map of a list of conditions. */
  ghost predicate Counts(counts: map<string, nat>, m: multiset<string>) {
    forall c :: (if c in counts then counts[c] else 0) == m[c]
  }

  method ConditionCounts(conditions: seq<string>) returns (counts: map<string, nat>)
    ensures Counts(counts, multiset(conditions))
    ensures forall c :: c in counts <==> c in conditions
  {
    counts := map[];
    for i := 0 to |conditions|
      invariant Counts(counts, multiset(conditions[..i]))
      invariant forall c :: c in counts <==> c in conditions[..i]
    {
      var c := conditions[i];
      assert conditions[..i + 1] == conditions[..i] + [c];
      counts := counts[c := (if c in counts then counts[c] else 0) + 1];
    }
    assert conditions[..|conditions|] == conditions;
  }

  method LowerTo(minimums: map<string, nat>, counts: map<string, nat>) returns (lowered: map<string, nat>)
    ensures lowered.Keys == minimums.Keys
    ensures forall c :: c in minimums ==>
      var count := if c in counts then counts[c] else 0; lowered[c] == if count < minimums[c] then count else minimums[c]
  {
    lowered := minimums;
    var rest := minimums.Keys;
    while rest != {}
      invariant rest <= minimums.Keys && lowered.Keys == minimums.Keys
      invariant forall c :: c in rest ==> lowered[c] == minimums[c]
      invariant forall c :: c in minimums && c !in rest ==>
        var count := if c in counts then counts[c] else 0; lowered[c] == if count < minimums[c] then count else minimums[c]
      decreases rest
    {
      var c :| c in rest;
      var count := if c in counts then counts[c] else 0;
      if count < lowered[c] {
        lowered := lowered[c := count];
      }
      rest := rest - {c};
    }
  }

  /** The conditions to factor out. */
  method CommonConditions(tasks: seq<Aggregate>) returns (common: seq<string>)
    requires tasks != []
    ensures common == Common(tasks)
  {
    var minimums := Minimums(tasks);
    common := Keep(tasks[0].conditions, minimums, Shared(tasks));
  }

  method Minimums(tasks: seq<Aggregate>) returns (minimums: map<string, nat>)
    requires tasks != []
    ensures Counts(minimums, Shared(tasks))
  {
    hide Counts;
    minimums := ConditionCounts(tasks[0].conditions);
    assert tasks[..1][0] == tasks[0];
    for k := 1 to |tasks|
      invariant Counts(minimums, Shared(tasks[..k]))
    {
      var counts := ConditionCounts(tasks[k].conditions);
      assert tasks[..k + 1][..k] == tasks[..k];
      var lowered := LowerTo(minimums, counts);
      LoweredCounts(minimums, counts, lowered, Shared(tasks[..k]), multiset(tasks[k].conditions));
      minimums := lowered;
    }
    assert tasks[..|tasks|] == tasks;
  }

  lemma {:induction false} CountOneMore(counts: map<string, nat>, s: seq<string>, c: string)
    requires Counts(counts, multiset(s))
    ensures Counts(counts[c := (if c in counts then counts[c] else 0) + 1], multiset(s + [c]))
  {
    var more := counts[c := (if c in counts then counts[c] else 0) + 1];
    assert (if c in counts then counts[c] else 0) == multiset(s)[c];
    assert multiset(s + [c]) == multiset(s) + multiset{c};
    forall d ensures (if d in more then more[d] else 0) == multiset(s + [c])[d] {
      assert (if d in counts then counts[d] else 0) == multiset(s)[d];
    }
  }

  method Keep(own: seq<string>, minimums: map<string, nat>, ghost limit: multiset<string>) returns (common: seq<string>)
    requires Counts(minimums, limit)
    ensures common == KeepUpTo(own, limit)
  {
    common := [];
    var used: map<string, nat> := map[];
    for i := 0 to |own|
      invariant common == KeepUpTo(own[..i], limit) && Counts(used, multiset(common))
    {
      hide KeepUpTo;
      var c := own[i];
      KeepStep(own, i, limit);
      var usedSoFar := if c in used then used[c] else 0;
      var minimum := if c in minimums then minimums[c] else 0;
      assert usedSoFar == multiset(common)[c] && minimum == limit[c];
      if usedSoFar < minimum {
        hide Counts;
        CountOneMore(used, common, c);
        common := common + [c];
        used := used[c := usedSoFar + 1];
      }
    }
    assert own[..|own|] == own;
  }

  lemma {:induction false} LoweredCounts(minimums: map<string, nat>, counts: map<string, nat>, lowered: map<string, nat>, m: multiset<string>, n: multiset<string>)
    requires Counts(minimums, m) && Counts(counts, n) && lowered.Keys == minimums.Keys
    requires forall c :: c in minimums ==>
      var count := if c in counts then counts[c] else 0; lowered[c] == if count < minimums[c] then count else minimums[c]
    ensures Counts(lowered, m * n)
  {
    forall c ensures (if c in lowered then lowered[c] else 0) == (m * n)[c] {
      assert (if c in minimums then minimums[c] else 0) == m[c];
      assert (if c in counts then counts[c] else 0) == n[c];
    }
  }

  /** The residual conditions; the capacity reserved for them is exactly their number. */
  method SubtractConditions(conditions: seq<string>, common: seq<string>) returns (residual: seq<string>, capacity: int)
    requires multiset(common) <= multiset(conditions)
    ensures residual == DropUpTo(conditions, multiset(common))
    ensures capacity == |residual|
  {
    var remaining := ConditionCounts(common);
    capacity := |conditions| - |common|;
    residual := [];
    ghost var limit := multiset(common);
    ghost var all := DropUpTo(conditions, limit);
    assert conditions[0..] == conditions && [] + all == all;
    for i := 0 to |conditions|
      invariant Counts(remaining, limit) && residual + DropUpTo(conditions[i..], limit) == all
    {
      var c := conditions[i];
      assert conditions[i..][0] == c && conditions[i..][1..] == conditions[i + 1..];
      var left := if c in remaining then remaining[c] else 0;
      assert left == limit[c];
      ghost var before := residual;
      if left > 0 {
        remaining := remaining[c := left - 1];
        limit := limit[c := limit[c] - 1];
      } else {
        residual := residual + [c];
        assert before + ([c] + DropUpTo(conditions[i + 1..], limit)) == residual + DropUpTo(conditions[i + 1..], limit);
      }
    }
    assert conditions[|conditions|..] == [];
    assert residual + [] == residual;
    DropCounts(conditions, multiset(common));
    assert |multiset(residual)| == |residual| && |multiset(conditions)| == |conditions| && |multiset(common)| == |common|;
    assert |multiset(conditions) - multiset(common)| == |multiset(conditions)| - |multiset(common)|;
  }

  // ---------------------------------------------------------------- groups

  lemma {:induction false} OnModelStep(tasks: seq<Task>, n: nat, model: string)
    requires n < |tasks|
    ensures var front, a := OnModel(tasks, n, model), AggregateOf(n, tasks[n]);
      OnModel(tasks, n + 1, model) == if a.Some? && a.value.model == model then front + [a.value] else front
  {
  }

  lemma {:induction false} NoneOnModel(tasks: seq<Task>, n: nat, model: string)
    requires n <= |tasks| && forall i :: 0 <= i < n && AggregateOf(i, tasks[i]).Some? ==> AggregateOf(i, tasks[i]).value.model != model
    ensures OnModel(tasks, n, model) == []
    decreases n
  {
    hide AggregateOf;
    if n > 0 {
      NoneOnModel(tasks, n - 1, model);
    }
  }

  /** The index of every model met so far. */
  ghost predicate Located(byModel: map<string, nat>, groups: seq<Group>) {
    && (forall m :: m in byModel ==> byModel[m] < |groups| && groups[byModel[m]].model == m)
    && (forall g :: 0 <= g < |groups| ==> groups[g].model in byModel)
  }

  lemma {:induction false} SkipTask(groups: seq<Group>, tasks: seq<Task>, n: nat)
    requires n < |tasks| && GroupedByModel(groups, tasks, n) && AggregateOf(n, tasks[n]).None?
    ensures GroupedByModel(groups, tasks, n + 1)
  {
    hide AggregateOf, OnModel;
    forall g | 0 <= g < |groups| ensures OnModel(tasks, n + 1, groups[g].model) == groups[g].tasks {
      OnModelStep(tasks, n, groups[g].model);
    }
  }

  lemma {:induction false} NewGroup(groups: seq<Group>, tasks: seq<Task>, n: nat, a: Aggregate)
    requires n < |tasks| && GroupedByModel(groups, tasks, n) && AggregateOf(n, tasks[n]) == Some(a)
    requires forall g :: 0 <= g < |groups| ==> groups[g].model != a.model
    ensures GroupedByModel(groups + [Group(a.model, [], [a])], tasks, n + 1)
  {
    hide AggregateOf, OnModel;
    var groups' := groups + [Group(a.model, [], [a])];
    NoneOnModel(tasks, n, a.model);
    forall g | 0 <= g < |groups'| ensures OnModel(tasks, n + 1, groups'[g].model) == groups'[g].tasks {
      OnModelStep(tasks, n, groups'[g].model);
    }
    forall i | 0 <= i < n + 1 && AggregateOf(i, tasks[i]).Some?
      ensures exists g :: 0 <= g < |groups'| && groups'[g].model == AggregateOf(i, tasks[i]).value.model
    {
      if i < n {
        var g :| 0 <= g < |groups| && groups[g].model == AggregateOf(i, tasks[i]).value.model;
        assert groups'[g].model == AggregateOf(i, tasks[i]).value.model;
      } else {
        assert groups'[|groups|].model == a.model;
      }
    }
  }

  lemma {:induction false} GrowGroup(groups: seq<Group>, tasks: seq<Task>, n: nat, a: Aggregate, k: nat)
    requires n < |tasks| && GroupedByModel(groups, tasks, n) && AggregateOf(n, tasks[n]) == Some(a)
    requires k < |groups| && groups[k].model == a.model
    ensures GroupedByModel(groups[k := groups[k].(tasks := groups[k].tasks + [a])], tasks, n + 1)
  {
    hide AggregateOf, OnModel;
    var groups' := groups[k := groups[k].(tasks := groups[k].tasks + [a])];
    assert forall g :: 0 <= g < |groups| ==> groups'[g].model == groups[g].model;
    forall g | 0 <= g < |groups'| ensures OnModel(tasks, n + 1, groups'[g].model) == groups'[g].tasks {
      OnModelStep(tasks, n, groups'[g].model);
    }
    forall i | 0 <= i < n + 1 && AggregateOf(i, tasks[i]).Some?
      ensures exists g :: 0 <= g < |groups'| && groups'[g].model == AggregateOf(i, tasks[i]).value.model
    {
      if i < n {
        var g :| 0 <= g < |groups| && groups[g].model == AggregateOf(i, tasks[i]).value.model;
        assert groups'[g].model == AggregateOf(i, tasks[i]).value.model;
      } else {
        assert groups'[k].model == a.model;
      }
    }
  }

  /** One group per model, in the order in which the models are first met. */
  method CollectGroups(tasks: seq<Task>) returns (groups: seq<Group>)
    ensures GroupedByModel(groups, tasks, |tasks|)
  {
    hide AggregateOf, OnModel;
    groups := [];
    var byModel: map<string, nat> := map[];
    for i := 0 to |tasks|
      invariant GroupedByModel(groups, tasks, i) && Located(byModel, groups)
    {
      var aggregate := AggregateOf(i, tasks[i]);
      if aggregate.None? {
        SkipTask(groups, tasks, i);
      } else {
        var a := aggregate.value;
        if a.model !in byModel {
          NewGroup(groups, tasks, i, a);
          byModel := byModel[a.model := |groups|];
          groups := groups + [Group(a.model, [], [])];
          groups := groups[|groups| - 1 := groups[|groups| - 1].(tasks := [a])];
          assert groups == groups[..|groups| - 1] + [Group(a.model, [], [a])];
        } else {
          var k := byModel[a.model];
          GrowGroup(groups, tasks, i, a, k);
          groups := groups[k := groups[k].(tasks := groups[k].tasks + [a])];
        }
      }
    }
  }

  /** Filters the groups within their own array: the kept ones are moved to the front, factored. */
  method FinalizeGroups(groups: array<Group>) returns (kept: nat)
    modifies groups
    ensures kept <= groups.Length && groups[..kept] == Finalized(old(groups[..]))
  {
    kept := 0;
    for i := 0 to groups.Length
      invariant kept <= i
      invariant groups[..kept] == Finalized(old(groups[..])[..i])
      invariant forall k :: i <= k < groups.Length ==> groups[k] == old(groups[k])
    {
      var group := groups[i];
      assert old(groups[..])[..i + 1][..i] == old(groups[..])[..i];
      if |group.tasks| >= 2 {
        var factored := Factor(group);
        groups[kept] := factored;
        assert groups[..kept + 1] == groups[..kept] + [factored];
        kept := kept + 1;
      }
    }
    assert old(groups[..])[..groups.Length] == old(groups[..]);
  }

  method Factor(group: Group) returns (factored: Group)
    requires group.tasks != []
    ensures factored == Factored(group)
  {
    var common := CommonConditions(group.tasks);
    var tasks := group.tasks;
    for k := 0 to |tasks|
      invariant |tasks| == |group.tasks|
      invariant forall j :: 0 <= j < k ==> tasks[j] == Residual(group.tasks[j], common)
      invariant forall j :: k <= j < |tasks| ==> tasks[j] == group.tasks[j]
    {
      CommonWithin(group.tasks, k);
      var residual, capacity := SubtractConditions(tasks[k].conditions, common);
      tasks := tasks[k := tasks[k].(conditions := residual)];
    }
    assert tasks == Residuals(group.tasks, common);
    factored := Group(group.model, common, tasks);
  }

  lemma {:induction false} CommonWithin(tasks: seq<Aggregate>, k: nat)
    requires k < |tasks|
    ensures multiset(Common(tasks)) <= multiset(tasks[k].conditions)
  {
    FactoringExact(tasks, k);
    SharedWithin(tasks, k);
  }

  // ---------------------------------------------------------------- emission

  /** The group of a task, and whether the task is its first. */
  method GroupAt(groups: seq<Group>, index: nat, ghost n: nat) returns (r: Option<(nat, bool)>)
    requires WellGrouped(groups, n)
    ensures r.None? <==> Holder(groups, index, 0).None?
    ensures r.Some? ==>
      && Holder(groups, index, 0) == Some(r.value.0) && groups[r.value.0].tasks != []
      && (r.value.1 <==> groups[r.value.0].tasks[0].index == index)
  {
    for g := 0 to |groups|
      invariant Holder(groups, index, 0) == Holder(groups, index, g)
    {
      for o := 0 to |groups[g].tasks|
        invariant forall p :: 0 <= p < o ==> groups[g].tasks[p].index != index
      {
        if groups[g].tasks[o].index == index {
          assert Contains(groups[g], index);
          return Some((g, o == 0));
        }
      }
    }
    return None;
  }

  /** An aggregate, and another task aggregates on the same model. */
  ghost predicate SharesModel(tasks: seq<Task>, i: nat)
    requires i < |tasks|
  {
    AggregateOf(i, tasks[i]).Some? && |OnModel(tasks, |tasks|, AggregateOf(i, tasks[i]).value.model)| >= 2
  }

  /** The fused groups of a block: one for every model that several tasks aggregate on. */
  ghost predicate FusedGroups(groups: seq<Group>, tasks: seq<Task>) {
    && WellGrouped(groups, |tasks|)
    && (forall g :: 0 <= g < |groups| ==> IsFusion(groups[g], tasks))
    && forall i :: 0 <= i < |tasks| && SharesModel(tasks, i) ==> Holder(groups, i, 0).Some?
  }

  method AggregateGroups(tasks: seq<Task>) returns (groups: seq<Group>)
    ensures FusedGroups(groups, tasks)
  {
    hide IsFusion, GroupedByModel, SharesModel, WellGrouped;
    var collected := CollectGroups(tasks);
    var buffer := new Group[|collected|](i requires 0 <= i < |collected| => collected[i]);
    assert buffer[..] == collected;
    var kept := FinalizeGroups(buffer);
    groups := buffer[..kept];
    assert collected[..|collected|] == collected;
    FinalizedFuse(collected, tasks, |collected|);
    FusionsWellGrouped(groups, tasks);
    forall i | 0 <= i < |tasks| && SharesModel(tasks, i) ensures Holder(groups, i, 0).Some? {
      SharersFused(collected, tasks, i);
    }
  }

  /** What is emitted: every task at its own turn, except that a group goes out at its first task. */
  ghost predicate Emitted(out: seq<Emission>, groups: seq<Group>, tasks: seq<Task>, scoped: bool) {
    && (if scoped then groups == [] else FusedGroups(groups, tasks))
    && WellGrouped(groups, |tasks|) && out == Emissions(groups, |tasks|)
  }

  /** The goroutines of an await block. Under an API-level scope nothing is fused. */
  method EmitTasks(tasks: seq<Task>, scoped: bool) returns (out: seq<Emission>)
    ensures exists groups :: Emitted(out, groups, tasks, scoped)
  {
    hide SharesModel, IsFusion, WellGrouped;
    var fused: seq<Group> := [];
    NoGroups(|tasks|);
    if !scoped {
      fused := AggregateGroups(tasks);
    }
    out := [];
    for index := 0 to |tasks|
      invariant out == Emissions(fused, index)
    {
      var at := GroupAt(fused, index, |tasks|);
      if at.Some? {
        if at.value.1 {
          out := out + [Batch(fused[at.value.0])];
        } else {
          assert out + [] == out;
        }
      } else {
        out := out + [Single(index)];
      }
    }
    assert Emitted(out, fused, tasks, scoped);
  }

  lemma {:induction false} NoGroups(n: nat)
    ensures WellGrouped([], n)
  {
  }

  lemma {:induction false} FactoredContains(g: Group, i: nat)
    requires Contains(g, i)
    ensures g.tasks != [] && Contains(Factored(g), i)
  {
    hide Common, DropUpTo;
    var o :| 0 <= o < |g.tasks| && g.tasks[o].index == i;
    assert Factored(g).tasks[o].index == i;
  }

  lemma {:induction false} FinalizedKeeps(groups: seq<Group>, k: nat)
    requires k < |groups| && |groups[k].tasks| >= 2
    ensures Factored(groups[k]) in Finalized(groups)
    decreases |groups|
  {
    hide Factored;
    if k < |groups| - 1 {
      FinalizedKeeps(groups[..|groups| - 1], k);
    }
  }

  lemma {:induction false} OnModelHolds(tasks: seq<Task>, n: nat, i: nat)
    requires i < n <= |tasks| && AggregateOf(i, tasks[i]).Some?
    ensures AggregateOf(i, tasks[i]).value in OnModel(tasks, n, AggregateOf(i, tasks[i]).value.model)
    decreases n
  {
    hide AggregateOf;
    if i < n - 1 {
      OnModelHolds(tasks, n - 1, i);
    }
  }

  /** An aggregate that shares its model with another one is fused. */
  lemma {:induction false} SharersFused(collected: seq<Group>, tasks: seq<Task>, i: nat)
    requires GroupedByModel(collected, tasks, |tasks|) && i < |tasks| && SharesModel(tasks, i)
    ensures Holder(Finalized(collected), i, 0).Some?
  {
    hide OnModel, Factored, AggregateOf;
    var a := AggregateOf(i, tasks[i]).value;
    AcceptedIsValid(i, tasks[i]);
    var g :| 0 <= g < |collected| && collected[g].model == a.model;
    OnModelHolds(tasks, |tasks|, i);
    assert a in collected[g].tasks;
    assert Contains(collected[g], i);
    FactoredContains(collected[g], i);
    FinalizedKeeps(collected, g);
    var f :| 0 <= f < |Finalized(collected)| && Finalized(collected)[f] == Factored(collected[g]);
    assert Contains(Finalized(collected)[f], i);
  }

  // ---------------------------------------------------------------- what the goroutines do

  /** Main result: the goroutines emitted for a block assign every variable, and each the value its task asks for. */
  lemma {:induction false} EmittedMeans<R, A, V>(w: World<R, A, V>, out: seq<Emission>, groups: seq<Group>, tasks: seq<Task>, scoped: bool)
    requires Emitted(out, groups, tasks, scoped)
    ensures var r := Run(w, tasks, out);
      && r.Some? && (forall i :: i in r.value <==> 0 <= i < |tasks|)
      && forall i :: 0 <= i < |tasks| ==> r.value[i] == OwnValue(w, tasks, i)
  {
    hide IsFusion, WellGrouped, SharesModel, OwnValue, Run, Emissions;
    FusionPreservesMeaning(w, tasks, groups);
  }

  /** Two aggregates on one model. */
  predicate SameModel(tasks: seq<Task>, i: nat, j: nat) {
    && i < |tasks| && j < |tasks| && i != j && IsAggregate(tasks[i]) && IsAggregate(tasks[j])
    && tasks[i].query.value.model == tasks[j].query.value.model
  }

  lemma {:induction false} TwoOnModel(tasks: seq<Task>, i: nat, j: nat)
    requires SameModel(tasks, i, j)
    ensures SharesModel(tasks, i)
  {
    hide AggregateOf, OnModel, IsAggregate;
    AggregateIff(i, tasks[i]);
    AggregateIff(j, tasks[j]);
    OnModelHolds(tasks, |tasks|, i);
    OnModelHolds(tasks, |tasks|, j);
  }

  lemma {:induction false} EmissionOf(groups: seq<Group>, n: nat, g: nat)
    requires g < |groups| && groups[g].tasks != [] && groups[g].tasks[0].index < n && Holder(groups, groups[g].tasks[0].index, 0) == Some(g)
    ensures Batch(groups[g]) in Emissions(groups, n)
    decreases n
  {
    hide Holder;
    if groups[g].tasks[0].index < n - 1 {
      EmissionOf(groups, n - 1, g);
    }
  }

  /** Unless the API has a scope, two aggregates on one model are answered by one query. */
  lemma {:induction false} SameModelFused(out: seq<Emission>, groups: seq<Group>, tasks: seq<Task>, i: nat, j: nat)
    requires Emitted(out, groups, tasks, false) && SameModel(tasks, i, j)
    ensures exists g :: Batch(g) in out && Contains(g, i) && Contains(g, j)
  {
    TwoOnModel(tasks, i, j);
    var g := Holder(groups, i, 0).value;
    FusionHolds(groups[g], tasks, i, j);
    FusionNonEmpty(groups[g], tasks);
    var first := groups[g].tasks[0].index;
    assert Contains(groups[g], first);
    HolderIs(groups, |tasks|, g, first);
    EmissionOf(groups, |tasks|, g);
  }

  lemma {:induction false} FusionHolds(g: Group, tasks: seq<Task>, i: nat, j: nat)
    requires IsFusion(g, tasks) && Contains(g, i) && SameModel(tasks, i, j)
    ensures Contains(g, j)
  {
    hide AggregateOf, OnModel, IsAggregate, Common, DropUpTo;
    FusionModel(g, tasks, i);
    AggregateIff(i, tasks[i]);
    AggregateIff(j, tasks[j]);
    OnModelHolds(tasks, |tasks|, j);
    var own := OnModel(tasks, |tasks|, g.model);
    var o :| 0 <= o < |own| && own[o] == AggregateOf(j, tasks[j]).value;
    assert g.tasks[o].index == j;
  }
}
