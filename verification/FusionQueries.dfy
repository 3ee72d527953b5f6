/**
 The queries of an await block as the schema writes them: which of them are aggregates that can be
 fused, and what such a query asks for.
 */
module FusionQueries {
  import opened Wrappers
  import opened AwaitFusion

  /** A local chain of where() calls with stable conditions, ended by a count() without arguments or by a
      sum, avg, min or max of one field. */
  predicate IsAggregate(task: Task) {
    && task.query.Some? && task.query.value.local
    && (forall l :: 0 <= l < |task.query.value.links| ==> IsStableWhere(task.query.value.links[l]))
    && IsAggregateCall(task.query.value.terminal)
  }

  predicate IsStableWhere(link: Link) {
    link.method_ == "where" && forall k :: 0 <= k < |link.conditions| ==> link.conditions[k].Stable?
  }

  predicate IsAggregateCall(t: Terminal) {
    || (t.method_ == "count" && t.args == 0)
    || (t.method_ in {"sum", "avg", "min", "max"} && t.args == 1 && t.field != "")
  }

  /** Some where() of the chain has this condition. */
  predicate Asks(q: Chain, c: string) {
    exists l, k :: 0 <= l < |q.links| && 0 <= k < |q.links[l].conditions| && q.links[l].conditions[k] == Stable(c)
  }

  /** The field it aggregates, none for a count. */
  function Aggregated(t: Terminal): string { if t.method_ == "count" then "" else t.field }

  // ---------------------------------------------------------------- the compiler recognises exactly these

  lemma {:induction false} TextsAre(conditions: seq<Condition>, c: string)
    ensures Texts(conditions).Some? <==> forall k :: 0 <= k < |conditions| ==> conditions[k].Stable?
    ensures Texts(conditions).Some? ==> (c in Texts(conditions).value <==> Stable(c) in conditions)
    decreases |conditions|
  {
    if conditions != [] {
      var n := |conditions| - 1;
      TextsAre(conditions[..n], c);
      assert conditions == conditions[..n] + [conditions[n]];
    }
  }

  predicate LinkAsks(link: Link, c: string) { Stable(c) in link.conditions }

  lemma {:induction false} ConditionsAre(links: seq<Link>, c: string)
    ensures ConditionsOf(links).Some? <==> forall l :: 0 <= l < |links| ==> IsStableWhere(links[l])
    ensures ConditionsOf(links).Some? ==> (c in ConditionsOf(links).value <==> exists l :: 0 <= l < |links| && LinkAsks(links[l], c))
    decreases |links|
  {
    hide Texts, IsStableWhere, LinkAsks;
    if links != [] {
      var n := |links| - 1;
      ConditionsAre(links[..n], c);
      LinkIs(links[n], c);
    }
  }

  lemma {:induction false} LinkIs(link: Link, c: string)
    ensures IsStableWhere(link) <==> link.method_ == "where" && Texts(link.conditions).Some?
    ensures Texts(link.conditions).Some? ==> (c in Texts(link.conditions).value <==> LinkAsks(link, c))
  {
    TextsAre(link.conditions, c);
  }

  lemma {:induction false} AggregateIff(i: nat, task: Task)
    ensures AggregateOf(i, task).Some? <==> IsAggregate(task)
    ensures IsAggregate(task) ==>
      var a, q := AggregateOf(i, task).value, task.query.value;
      && a.index == i && a.model == q.model && a.function_ == q.terminal.method_ && a.column == Aggregated(q.terminal)
      && forall c :: c in a.conditions <==> Asks(q, c)
  {
    hide ConditionsOf, IsStableWhere;
    if task.query.Some? {
      var q := task.query.value;
      ConditionsAre(q.links, "");
      forall c ensures ConditionsOf(q.links).Some? ==> (c in ConditionsOf(q.links).value <==> Asks(q, c)) {
        ConditionsAre(q.links, c);
        if l :| 0 <= l < |q.links| && LinkAsks(q.links[l], c) {
          var k :| 0 <= k < |q.links[l].conditions| && q.links[l].conditions[k] == Stable(c);
          assert Asks(q, c);
        }
        if l, k :| 0 <= l < |q.links| && 0 <= k < |q.links[l].conditions| && q.links[l].conditions[k] == Stable(c) {
          assert LinkAsks(q.links[l], c);
        }
      }
    }
  }
}
