/**
 The names of the parameters built for an inferred query. The handler declares one Go variable for
 each, so a query whose names coincide has no handler that compiles: exactly when that happens.
 */
module InferredNames {
  import opened InferredOr

  function Names(params: seq<Param>): (names: seq<string>)
    ensures |names| == |params| && forall i :: 0 <= i < |names| ==> names[i] == params[i].name
  {
    seq(|params|, i requires 0 <= i < |params| => params[i].name)
  }

  /** The variables the handler declares; Go rejects a second declaration of a name in one scope. */
  function Declared(q: Query, types: string -> string): seq<string> { Names(ParamsOfAll(Flat(q), types)) }

  predicate NoDuplicates(names: seq<string>) {
    forall i, j :: 0 <= i < j < |names| ==> names[i] != names[j]
  }

  // ---------------------------------------------------------------- when two clauses clash

  /** How an operator forms its names: a fixed one, the field itself, or the field with an ending. */
  datatype Shape = Nameless | Keyword | Plain | Range | Ending(text: string)

  function ShapeOf(op: Op): Shape {
    if TakesNothing(op) then Nameless
    else match op
      case Containing => Keyword
      case NotContaining => Keyword
      case Between => Range
      case StartsWith => Ending("Prefix")
      case EndsWith => Ending("Suffix")
      case InSet => Ending("s")
      case NotInSet => Ending("s")
      case _ => Plain
  }

  /** The field `f`, used as a name, is also a name of the clause. */
  predicate Hides(f: string, c: Clause) {
    match ShapeOf(c.op)
    case Nameless => false
    case Keyword => f == "keyword"
    case Plain => f == c.field
    case Range => f == c.field + "From" || f == c.field + "To"
    case Ending(text) => f == c.field + text
  }

  /** Two clauses clash when both take the keyword, when they form their names alike from one field, or when
      one takes its field as it is and that is a name of the other. */
  predicate Clash(c: Clause, d: Clause) {
    || (ShapeOf(c.op).Keyword? && ShapeOf(d.op).Keyword?)
    || (!ShapeOf(c.op).Nameless? && ShapeOf(c.op) == ShapeOf(d.op) && c.field == d.field)
    || (ShapeOf(c.op).Plain? && Hides(c.field, d))
    || (ShapeOf(d.op).Plain? && Hides(d.field, c))
  }

  predicate NoClash(clauses: seq<Clause>) {
    forall i, j :: 0 <= i < j < |clauses| ==> !Clash(clauses[i], clauses[j])
  }

  predicate Disjoint(a: seq<string>, b: seq<string>) {
    forall i, j :: 0 <= i < |a| && 0 <= j < |b| ==> a[i] != b[j]
  }

  function NamesOf(c: Clause, types: string -> string): seq<string> { Names(ParamsOf(c, types)) }

  lemma {:induction false} NamesByShape(c: Clause, types: string -> string)
    ensures NamesOf(c, types) ==
      match ShapeOf(c.op)
      case Nameless => []
      case Keyword => ["keyword"]
      case Plain => [c.field]
      case Range => [c.field + "From", c.field + "To"]
      case Ending(text) => [c.field + text]
  {
  }

  /** The endings differ in their last rune, or, of the same length, in their first. */
  lemma {:induction false} EndingsDiffer(f: string, s: string, g: string, t: string)
    requires s in ["Prefix", "Suffix", "s", "From", "To"] && t in ["Prefix", "Suffix", "s", "From", "To"]
    ensures f + s == g + t <==> f == g && s == t
    ensures f + s != "keyword"
  {
    var a, b := f + s, g + t;
    assert a[|a| - 1] == s[|s| - 1] && b[|b| - 1] == t[|t| - 1];
    assert "keyword"[6] == 'd';
    if a == b {
      assert |s| == |t|;
      assert a[..|f|] == f && b[..|g|] == g;
      assert a[|f|] == s[0] && b[|g|] == t[0];
    }
  }

  lemma {:induction false} ClashIffShared(c: Clause, d: Clause, types: string -> string)
    ensures Clash(c, d) <==> !Disjoint(NamesOf(c, types), NamesOf(d, types))
  {
    NamesByShape(c, types);
    NamesByShape(d, types);
    EndingsOf(c, d);
    hide NamesOf, ShapeOf;
    var a, b := NamesOf(c, types), NamesOf(d, types);
    assert |a| <= 2 && |b| <= 2;
    assert Disjoint(a, b) <==>
      && (|a| > 0 && |b| > 0 ==> a[0] != b[0]) && (|a| > 0 && |b| > 1 ==> a[0] != b[1])
      && (|a| > 1 && |b| > 0 ==> a[1] != b[0]) && (|a| > 1 && |b| > 1 ==> a[1] != b[1]);
  }

  lemma {:induction false} EndingsOf(c: Clause, d: Clause)
    ensures forall s, t ::
      s in ["Prefix", "Suffix", "s", "From", "To"] && t in ["Prefix", "Suffix", "s", "From", "To"] ==>
      (c.field + s == d.field + t <==> c.field == d.field && s == t) && c.field + s != "keyword" && d.field + t != "keyword"
    ensures ShapeOf(c.op).Ending? ==> ShapeOf(c.op).text in ["Prefix", "Suffix", "s"]
    ensures ShapeOf(d.op).Ending? ==> ShapeOf(d.op).text in ["Prefix", "Suffix", "s"]
  {
    forall s, t | s in ["Prefix", "Suffix", "s", "From", "To"] && t in ["Prefix", "Suffix", "s", "From", "To"]
      ensures (c.field + s == d.field + t <==> c.field == d.field && s == t) && c.field + s != "keyword" && d.field + t != "keyword"
    {
      EndingsDiffer(c.field, s, d.field, t);
      EndingsDiffer(d.field, t, c.field, s);
    }
  }

  // ---------------------------------------------------------------- the whole query

  lemma {:induction false} NamesAppend(a: seq<Param>, b: seq<Param>)
    ensures Names(a + b) == Names(a) + Names(b)
  {
  }

  lemma {:induction false} OwnNamesDiffer(c: Clause, types: string -> string)
    ensures NoDuplicates(NamesOf(c, types))
  {
    NamesByShape(c, types);
    EndingsDiffer(c.field, "From", c.field, "To");
  }

  lemma {:induction false} NoDuplicatesAppend(a: seq<string>, b: seq<string>)
    ensures NoDuplicates(a + b) <==> NoDuplicates(a) && NoDuplicates(b) && Disjoint(a, b)
  {
    var c := a + b;
    if NoDuplicates(c) {
      forall i, j | 0 <= i < j < |a| ensures a[i] != a[j] { assert c[i] == a[i] && c[j] == a[j]; }
      forall i, j | 0 <= i < j < |b| ensures b[i] != b[j] { assert c[|a| + i] == b[i] && c[|a| + j] == b[j]; }
      forall i, j | 0 <= i < |a| && 0 <= j < |b| ensures a[i] != b[j] { assert c[i] == a[i] && c[|a| + j] == b[j]; }
    }
  }

  /** The names of the clauses so far avoid those of one more exactly when no clause clashes with it. */
  lemma {:induction false} DisjointIff(clauses: seq<Clause>, d: Clause, types: string -> string)
    ensures Disjoint(Names(ParamsOfAll(clauses, types)), NamesOf(d, types)) <==>
      forall i :: 0 <= i < |clauses| ==> !Clash(clauses[i], d)
    decreases |clauses|
  {
    hide ParamsOf, Clash, Names;
    if clauses != [] {
      var n := |clauses| - 1;
      DisjointIff(clauses[..n], d, types);
      ClashIffShared(clauses[n], d, types);
      NamesAppend(ParamsOfAll(clauses[..n], types), ParamsOf(clauses[n], types));
      DisjointAppend(Names(ParamsOfAll(clauses[..n], types)), NamesOf(clauses[n], types), NamesOf(d, types));
    }
  }

  lemma {:induction false} DisjointAppend(a: seq<string>, b: seq<string>, c: seq<string>)
    ensures Disjoint(a + b, c) <==> Disjoint(a, c) && Disjoint(b, c)
  {
    if Disjoint(a + b, c) {
      forall i, j | 0 <= i < |a| && 0 <= j < |c| ensures a[i] != c[j] { assert (a + b)[i] == a[i]; }
      forall i, j | 0 <= i < |b| && 0 <= j < |c| ensures b[i] != c[j] { assert (a + b)[|a| + i] == b[i]; }
    }
  }

  lemma {:induction false} NamesDifferIff(clauses: seq<Clause>, types: string -> string)
    ensures NoDuplicates(Names(ParamsOfAll(clauses, types))) <==> NoClash(clauses)
    decreases |clauses|
  {
    hide ParamsOf, Clash, Names, Disjoint, NoDuplicates;
    if clauses == [] {
      NoNames(types);
    } else {
      var n := |clauses| - 1;
      var front, d := clauses[..n], clauses[n];
      NamesDifferIff(front, types);
      DisjointIff(front, d, types);
      OwnNamesDiffer(d, types);
      NamesAppend(ParamsOfAll(front, types), ParamsOf(d, types));
      NoDuplicatesAppend(Names(ParamsOfAll(front, types)), NamesOf(d, types));
      NoClashLast(clauses);
    }
  }

  lemma {:induction false} NoNames(types: string -> string)
    ensures NoDuplicates(Names(ParamsOfAll([], types)))
  {
  }

  lemma {:induction false} NoClashLast(clauses: seq<Clause>)
    requires clauses != []
    ensures var n := |clauses| - 1;
      NoClash(clauses) <==> NoClash(clauses[..n]) && forall i :: 0 <= i < n ==> !Clash(clauses[i], clauses[n])
  {
    hide Clash;
  }

  /** The handler's declarations are valid Go exactly when no two clauses of the query clash. */
  lemma {:induction false} HandlerCompilesIff(q: Query, types: string -> string)
    ensures NoDuplicates(Declared(q, types)) <==> NoClash(Flat(q))
  {
    NamesDifferIff(Flat(q), types);
  }

  /** It happens: a query by an age above one bound and below another declares `age` twice, and one for two
      texts that contain a word declares `keyword` twice. */
  lemma {:induction false} TwoBoundsDoNotCompile(types: string -> string)
    ensures !NoDuplicates(Declared([[Clause("age", Gt), Clause("age", Lt)]], types))
    ensures !NoDuplicates(Declared([[Clause("title", Containing)], [Clause("body", Containing)]], types))
  {
    var gt, lt, title, body := Clause("age", Gt), Clause("age", Lt), Clause("title", Containing), Clause("body", Containing);
    assert Clash(gt, lt) && Clash(title, body);
    hide Clash, Declared, NoDuplicates, Flat;
    FlatOne([gt, lt]);
    FlatTwo([title], [body]);
    PairClashes(gt, lt);
    PairClashes(title, body);
    HandlerCompilesIff([[gt, lt]], types);
    HandlerCompilesIff([[title], [body]], types);
  }

  lemma {:induction false} PairClashes(c: Clause, d: Clause)
    requires Clash(c, d)
    ensures !NoClash([c, d]) && [c] + [d] == [c, d]
  {
    hide Clash;
    assert Clash([c, d][0], [c, d][1]);
  }

  lemma {:induction false} FlatOne(a: seq<Clause>)
    ensures Flat([a]) == a
  {
    assert [a][..0] == [];
  }

  lemma {:induction false} FlatTwo(a: seq<Clause>, b: seq<Clause>)
    ensures Flat([a, b]) == a + b
  {
    assert [a, b][..1] == [a];
    FlatOne(a);
  }
}
