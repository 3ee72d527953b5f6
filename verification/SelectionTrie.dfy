/**
 Selections inferred from member accesses: pruning paths that others cover, building the tree of the
 paths and rendering it with sorted names.
 */
module SelectionTrie {

  type Path = seq<string>

  /** A node; its name is the key it has in its parent. */
  datatype Trie = Trie(children: map<string, Trie>)

  /** One entry of the rendered literal. */
  datatype FieldLiteral = FieldLiteral(name: string, children: seq<FieldLiteral>)

  const EMPTY := Trie(map[])

  // ---------------------------------------------------------------- pruning

  /** The first `n` elements agree with the path. */
  predicate Covers(candidate: Path, path: Path) { path <= candidate }

  predicate CoveredBy(path: Path, selected: seq<Path>) {
    exists k :: 0 <= k < |selected| && Covers(selected[k], path)
  }

  ghost predicate AllCovered(paths: seq<Path>, selected: seq<Path>) {
    forall k :: 0 <= k < |paths| ==> CoveredBy(paths[k], selected)
  }

  method Covered(path: Path, selected: seq<Path>) returns (r: bool)
    ensures r <==> CoveredBy(path, selected)
  {
    for c := 0 to |selected|
      invariant forall k :: 0 <= k < c ==> !Covers(selected[k], path)
    {
      var candidate := selected[c];
      if |candidate| < |path| {
        continue;
      }
      var match_ := true;
      for index := 0 to |path|
        invariant match_ && forall k :: 0 <= k < index ==> candidate[k] == path[k]
      {
        if candidate[index] != path[index] {
          match_ := false;
          break;
        }
      }
      if match_ {
        assert candidate[..|path|] == path;
        assert Covers(selected[c], path);
        return true;
      }
    }
    return false;
  }

  /** The names of a path, separated by the rune 0. */
  function Joined(path: Path): string
    decreases |path|
  {
    if |path| == 0 then "" else if |path| == 1 then path[0] else path[0] + "\0" + Joined(path[1..])
  }

  /** The order in which paths are sorted: longer ones first, those of one length by their text. */
  predicate Precedes(a: Path, b: Path) {
    |a| > |b| || (|a| == |b| && Less(Joined(a), Joined(b)))
  }

  predicate SortedPaths(paths: seq<Path>) {
    forall i, j :: 0 <= i < j < |paths| ==> !Precedes(paths[j], paths[i])
  }

  predicate LongestFirst(paths: seq<Path>) {
    forall i, j :: 0 <= i < j < |paths| ==> |paths[i]| >= |paths[j]|
  }

  lemma {:induction false} PrecedesTransitive(a: Path, b: Path, c: Path)
    ensures Precedes(a, b) && Precedes(b, c) ==> Precedes(a, c)
    ensures Precedes(a, b) && !Precedes(c, b) ==> !Precedes(c, a)
  {
    hide Joined, Less;
    if Precedes(a, b) && Precedes(b, c) && |a| == |c| {
      LessTransitive(Joined(a), Joined(b), Joined(c));
    }
    if Precedes(a, b) && Precedes(c, a) && |b| == |c| {
      LessTransitive(Joined(c), Joined(a), Joined(b));
    }
  }

  /** Sorts the paths; which of two equal ones comes first is of no account. */
  method SortPaths(paths: seq<Path>) returns (sorted: seq<Path>)
    ensures multiset(sorted) == multiset(paths) && SortedPaths(sorted) && LongestFirst(sorted)
  {
    hide Precedes, LongestFirst;
    sorted := [];
    for k := 0 to |paths|
      invariant multiset(sorted) == multiset(paths[..k]) && SortedPaths(sorted)
    {
      assert paths[..k + 1] == paths[..k] + [paths[k]];
      sorted := InsertPath(sorted, paths[k]);
    }
    assert paths[..|paths|] == paths;
    SortedIsLongestFirst(sorted);
  }

  lemma {:induction false} SortedIsLongestFirst(paths: seq<Path>)
    requires SortedPaths(paths)
    ensures LongestFirst(paths)
  {
    hide Joined, Less;
  }

  method InsertPath(sorted: seq<Path>, path: Path) returns (r: seq<Path>)
    requires SortedPaths(sorted)
    ensures multiset(r) == multiset(sorted) + multiset{path} && SortedPaths(r)
  {
    hide Precedes;
    var i := 0;
    while i < |sorted| && !Precedes(path, sorted[i])
      invariant i <= |sorted| && forall k :: 0 <= k < i ==> !Precedes(path, sorted[k])
    {
      i := i + 1;
    }
    forall k | i <= k < |sorted| ensures !Precedes(sorted[k], path) {
      PrecedesTransitive(path, sorted[i], sorted[k]);
      NotBoth(path, sorted[i]);
    }
    r := sorted[..i] + [path] + sorted[i..];
    assert sorted == sorted[..i] + sorted[i..];
  }

  lemma {:induction false} NotBoth(a: Path, b: Path)
    ensures !(Precedes(a, b) && Precedes(b, a))
  {
    hide Joined, Less;
    LessTotal(Joined(a), Joined(b));
  }

  // ---------------------------------------------------------------- there is one order

  /** Names do not contain the rune that separates them. */
  predicate Separable(path: Path) { forall k :: 0 <= k < |path| ==> '\0' !in path[k] }

  lemma {:induction false} SplitAtSeparator(a: string, s: string, b: string, t: string)
    requires '\0' !in a && '\0' !in b && a + "\0" + s == b + "\0" + t
    ensures a == b && s == t
  {
    var left, right := a + "\0" + s, b + "\0" + t;
    assert left[|a|] == '\0' && right[|b|] == '\0';
    assert forall k :: 0 <= k < |a| ==> left[k] == a[k] && left[k] != '\0';
    assert forall k :: 0 <= k < |b| ==> right[k] == b[k] && right[k] != '\0';
    assert |a| == |b|;
    assert a == left[..|a|] && b == right[..|a|] && s == left[|a| + 1..] && t == right[|a| + 1..];
  }

  lemma {:induction false} JoinedInjective(a: Path, b: Path)
    requires |a| == |b| && Separable(a) && Separable(b) && Joined(a) == Joined(b)
    ensures a == b
    decreases |a|
  {
    if |a| >= 2 {
      SplitAtSeparator(a[0], Joined(a[1..]), b[0], Joined(b[1..]));
      JoinedInjective(a[1..], b[1..]);
      assert a == [a[0]] + a[1..] && b == [b[0]] + b[1..];
    }
  }

  lemma {:induction false} SameFirst(a: seq<Path>, b: seq<Path>)
    requires a != [] && b != [] && a[0] in b && b[0] in a && SortedPaths(a) && SortedPaths(b)
    requires Separable(a[0]) && Separable(b[0])
    ensures a[0] == b[0]
  {
    hide Joined, Less, Separable;
    if a[0] != b[0] {
      var i :| 0 <= i < |a| && a[i] == b[0];
      var j :| 0 <= j < |b| && b[j] == a[0];
      assert !Precedes(a[i], a[0]) && !Precedes(b[j], b[0]);
      LessTotal(Joined(a[0]), Joined(b[0]));
      JoinedInjective(a[0], b[0]);
    }
  }

  lemma {:induction false} SameTails(a: seq<Path>, b: seq<Path>)
    requires a != [] && b != [] && a[0] == b[0] && multiset(a) == multiset(b)
    ensures multiset(a[1..]) == multiset(b[1..])
  {
    assert a == [a[0]] + a[1..] && b == [b[0]] + b[1..];
    assert multiset(a[1..]) == multiset(a) - multiset{a[0]} && multiset(b[1..]) == multiset(b) - multiset{b[0]};
  }

  lemma {:induction false} SameHeads(a: seq<Path>, b: seq<Path>)
    requires a != [] && multiset(a) == multiset(b)
    ensures b != [] && a[0] in b && b[0] in a
  {
    assert a[0] in multiset(a);
    assert |b| > 0;
    assert b[0] in multiset(b);
  }

  lemma {:induction false} SortedTail(a: seq<Path>)
    requires a != [] && SortedPaths(a)
    ensures SortedPaths(a[1..])
  {
    hide Precedes;
  }

  /** The sorted list does not depend on the order in which the paths come. */
  lemma {:induction false} OneOrder(a: seq<Path>, b: seq<Path>)
    requires multiset(a) == multiset(b) && SortedPaths(a) && SortedPaths(b)
    requires forall k, i :: 0 <= k < |a| && 0 <= i < |a[k]| ==> '\0' !in a[k][i]
    ensures a == b
    decreases |a|
  {
    assert forall k :: 0 <= k < |a| ==> Separable(a[k]);
    hide SortedPaths, Separable;
    if a == [] {
      assert |b| == |multiset(b)| == |multiset(a)| == 0;
    } else {
      SameHeads(a, b);
      var k :| 0 <= k < |a| && a[k] == b[0];
      SameFirst(a, b);
      SameTails(a, b);
      SortedTail(a);
      SortedTail(b);
      OneOrder(a[1..], b[1..]);
      assert a == [a[0]] + a[1..] && b == [b[0]] + b[1..];
    }
  }

  /** No path is covered by another one, equal ones included. */
  predicate Antichain(paths: seq<Path>) {
    forall i, j :: 0 <= i < |paths| && 0 <= j < |paths| && i != j ==> !Covers(paths[i], paths[j])
  }

  /** The paths kept so far: longer than all that follow, and covering all before. */
  ghost predicate PrunedUpTo(result: seq<Path>, paths: seq<Path>, k: nat)
    requires k <= |paths|
  {
    && Antichain(result) && AllCovered(paths[..k], result)
    && forall i :: 0 <= i < |result| ==> result[i] in paths && forall j :: k <= j < |paths| ==> |result[i]| >= |paths[j]|
  }

  lemma {:induction false} EqualLengths(a: Path, b: Path)
    ensures Covers(a, b) && |b| >= |a| ==> a == b
  {
  }

  lemma {:induction false} KeepPath(result: seq<Path>, paths: seq<Path>, k: nat)
    requires LongestFirst(paths) && k < |paths| && PrunedUpTo(result, paths, k) && !CoveredBy(paths[k], result)
    ensures PrunedUpTo(result + [paths[k]], paths, k + 1)
  {
    var kept := result + [paths[k]];
    var seen := paths[..k + 1];
    forall j | 0 <= j < |seen| ensures CoveredBy(seen[j], kept) {
      if j < k {
        assert paths[..k][j] == paths[j];
        var s :| 0 <= s < |result| && Covers(result[s], paths[j]);
        assert Covers(kept[s], paths[j]);
      } else {
        assert Covers(kept[|result|], paths[k]);
      }
    }
    forall i | 0 <= i < |result| ensures !Covers(result[i], paths[k]) && !Covers(paths[k], result[i]) {
      assert |result[i]| >= |paths[k]|;
      EqualLengths(paths[k], result[i]);
    }
  }

  lemma {:induction false} SkipPath(result: seq<Path>, paths: seq<Path>, k: nat)
    requires k < |paths| && PrunedUpTo(result, paths, k) && CoveredBy(paths[k], result)
    ensures PrunedUpTo(result, paths, k + 1)
  {
    hide CoveredBy, Antichain;
    var seen := paths[..k + 1];
    forall j | 0 <= j < |seen| ensures CoveredBy(seen[j], result) {
      if j < k {
        assert paths[..k][j] == paths[j];
      }
    }
  }

  /** Pruning loses nothing: its result is an antichain drawn from the paths that covers every one. */
  method Prune(paths: seq<Path>) returns (result: seq<Path>)
    ensures Antichain(result) && AllCovered(paths, result)
    ensures forall i :: 0 <= i < |result| ==> result[i] in paths
  {
    hide Antichain, AllCovered, LongestFirst, SortedPaths;
    var sorted := SortPaths(paths);
    result := PruneSorted(sorted);
    SameElements(paths, sorted);
    SubsetCovered(paths, sorted);
    AllCoveredTransitive(paths, sorted, result);
  }

  lemma {:induction false} SameElements(a: seq<Path>, b: seq<Path>)
    requires multiset(a) == multiset(b)
    ensures forall p :: p in a <==> p in b
  {
    assert forall p :: p in a <==> p in multiset(a);
    assert forall p :: p in b <==> p in multiset(b);
  }

  lemma {:induction false} AllCoveredTransitive(a: seq<Path>, b: seq<Path>, c: seq<Path>)
    requires AllCovered(a, b) && AllCovered(b, c)
    ensures AllCovered(a, c)
  {
    hide CoveredBy;
    forall k | 0 <= k < |a| ensures CoveredBy(a[k], c) {
      CoveringTransitive(a[k], b, c);
    }
  }

  method PruneSorted(paths: seq<Path>) returns (result: seq<Path>)
    requires LongestFirst(paths)
    ensures Antichain(result) && AllCovered(paths, result)
    ensures forall i :: 0 <= i < |result| ==> result[i] in paths
  {
    result := [];
    assert PrunedUpTo(result, paths, 0);
    hide PrunedUpTo;
    for k := 0 to |paths|
      invariant PrunedUpTo(result, paths, k)
    {
      var covered := Covered(paths[k], result);
      if covered {
        SkipPath(result, paths, k);
      } else {
        KeepPath(result, paths, k);
        result := result + [paths[k]];
      }
    }
    PrunedAll(result, paths);
  }

  lemma {:induction false} PrunedAll(result: seq<Path>, paths: seq<Path>)
    requires PrunedUpTo(result, paths, |paths|)
    ensures Antichain(result) && AllCovered(paths, result)
    ensures forall i :: 0 <= i < |result| ==> result[i] in paths
  {
    hide CoveredBy, Antichain;
    assert paths[..|paths|] == paths;
  }

  // ---------------------------------------------------------------- the tree

  function Insert(t: Trie, path: Path): Trie
    decreases |path|
  {
    if path == [] then t
    else
      var child := if path[0] in t.children then t.children[path[0]] else EMPTY;
      Trie(t.children[path[0] := Insert(child, path[1..])])
  }

  function Build(paths: seq<Path>): Trie
    decreases |paths|
  {
    if paths == [] then EMPTY else Insert(Build(paths[..|paths| - 1]), paths[|paths| - 1])
  }

  /** There is a node at the end of this path. */
  predicate Has(t: Trie, q: Path)
    decreases |q|
  {
    q == [] || (q[0] in t.children && Has(t.children[q[0]], q[1..]))
  }

  lemma {:induction false} InsertHas(t: Trie, path: Path, q: Path)
    ensures Has(Insert(t, path), q) <==> Has(t, q) || q <= path
    decreases |path|
  {
    if path != [] && q != [] {
      var child := if path[0] in t.children then t.children[path[0]] else EMPTY;
      InsertHas(child, path[1..], q[1..]);
      if q <= path {
        assert q[1..] <= path[1..];
      }
      if q[0] == path[0] && q[1..] <= path[1..] {
        assert q == [q[0]] + q[1..] && path == [path[0]] + path[1..];
      }
      if q[0] == path[0] && path[0] !in t.children && Has(EMPTY, q[1..]) {
        assert q[1..] == [];
      }
    }
  }

  /** The nodes of the tree are exactly the prefixes of its paths. */
  lemma {:induction false} NodesArePrefixes(paths: seq<Path>, q: Path)
    ensures Has(Build(paths), q) <==> q == [] || CoveredBy(q, paths)
    decreases |paths|
  {
    if paths != [] {
      var n := |paths| - 1;
      NodesArePrefixes(paths[..n], q);
      InsertHas(Build(paths[..n]), paths[n], q);
      if CoveredBy(q, paths) {
        var k :| 0 <= k < |paths| && Covers(paths[k], q);
        assert k < n ==> Covers(paths[..n][k], q);
      }
      if CoveredBy(q, paths[..n]) {
        var k :| 0 <= k < n && Covers(paths[..n][k], q);
        assert Covers(paths[k], q);
      }
      assert Covers(paths[n], q) <==> q <= paths[n];
    }
  }

  ghost predicate SameNodes(a: Trie, b: Trie) {
    forall q :: Has(a, q) <==> Has(b, q)
  }

  lemma {:induction false} ChildIsNode(t: Trie, k: string)
    ensures Has(t, [k]) <==> k in t.children
  {
    assert [k][1..] == [];
  }

  /** A tree is determined by its nodes. */
  lemma {:induction false} NodesDetermineTree(a: Trie, b: Trie)
    requires SameNodes(a, b)
    ensures a == b
    decreases a
  {
    forall k ensures k in a.children <==> k in b.children {
      ChildIsNode(a, k);
      ChildIsNode(b, k);
      assert Has(a, [k]) <==> Has(b, [k]);
    }
    forall k | k in a.children ensures a.children[k] == b.children[k] {
      forall q ensures Has(a.children[k], q) <==> Has(b.children[k], q) {
        assert ([k] + q)[1..] == q;
        assert Has(a, [k] + q) <==> Has(b, [k] + q);
      }
      NodesDetermineTree(a.children[k], b.children[k]);
    }
    assert a.children == b.children;
  }

  /** The tree depends on the prefixes of its paths only: not on their order, on duplicates, or on
      paths that others cover. */
  lemma {:induction false} TreeOfCoveringPaths(paths: seq<Path>, others: seq<Path>)
    requires AllCovered(paths, others) && AllCovered(others, paths)
    ensures Build(paths) == Build(others)
  {
    hide Build, Has, CoveredBy, AllCovered;
    forall q ensures Has(Build(paths), q) <==> Has(Build(others), q) {
      NodesArePrefixes(paths, q);
      NodesArePrefixes(others, q);
      CoveringTransitive(q, paths, others);
      CoveringTransitive(q, others, paths);
    }
    NodesDetermineTree(Build(paths), Build(others));
  }

  lemma {:induction false} CoveringTransitive(q: Path, paths: seq<Path>, others: seq<Path>)
    requires AllCovered(paths, others)
    ensures CoveredBy(q, paths) ==> CoveredBy(q, others)
  {
    if CoveredBy(q, paths) {
      var k :| 0 <= k < |paths| && Covers(paths[k], q);
      assert CoveredBy(paths[k], others);
      var s :| 0 <= s < |others| && Covers(others[s], paths[k]);
      PrefixTransitive(q, paths[k], others[s]);
      assert Covers(others[s], q);
    }
  }

  lemma {:induction false} PrefixTransitive(a: Path, b: Path, c: Path)
    requires a <= b && b <= c
    ensures a <= c
  {
  }

  lemma {:induction false} SubsetCovered(paths: seq<Path>, others: seq<Path>)
    requires forall k :: 0 <= k < |paths| ==> paths[k] in others
    ensures AllCovered(paths, others)
  {
    forall k | 0 <= k < |paths| ensures CoveredBy(paths[k], others) {
      var s :| 0 <= s < |others| && others[s] == paths[k];
      assert Covers(others[s], paths[k]);
    }
  }

  // ---------------------------------------------------------------- rendering

  /** Lexicographic order. */
  predicate Less(a: string, b: string)
    decreases |a|
  {
    b != "" && (a == "" || a[0] < b[0] || (a[0] == b[0] && Less(a[1..], b[1..])))
  }

  /** The texts agree up to a place where the first one ends, or has the smaller rune. */
  predicate FirstDifference(a: string, b: string, k: nat) {
    k <= |a| && k < |b| && a[..k] == b[..k] && (k == |a| || a[k] < b[k])
  }

  /** The order is the lexicographic one. */
  lemma {:induction false} LessIff(a: string, b: string)
    ensures Less(a, b) <==> exists k: nat :: FirstDifference(a, b, k)
    decreases |a|
  {
    if a == "" || b == "" {
      assert b != "" ==> FirstDifference(a, b, 0);
    } else if a[0] == b[0] {
      LessIff(a[1..], b[1..]);
      assert a == [a[0]] + a[1..] && b == [b[0]] + b[1..];
      if k: nat :| FirstDifference(a[1..], b[1..], k) {
        assert a[..k + 1] == [a[0]] + a[1..][..k] && b[..k + 1] == [b[0]] + b[1..][..k];
        assert FirstDifference(a, b, k + 1);
      }
      if k: nat :| FirstDifference(a, b, k) {
        assert a[1..][..k - 1] == a[..k][1..] && b[1..][..k - 1] == b[..k][1..];
        assert FirstDifference(a[1..], b[1..], k - 1);
      }
    } else {
      assert a[0] < b[0] ==> FirstDifference(a, b, 0);
      assert forall k: nat :: FirstDifference(a, b, k) && k > 0 ==> a[..k][0] == b[..k][0];
    }
  }

  lemma {:induction false} LessTotal(a: string, b: string)
    ensures !(Less(a, b) && Less(b, a)) && !Less(a, a)
    ensures a != b ==> Less(a, b) || Less(b, a)
    decreases |a|
  {
    if a != "" {
      LessTotal(a[1..], a[1..]);
      if b != "" {
        LessTotal(a[1..], b[1..]);
        if a[0] == b[0] && a[1..] == b[1..] {
          assert a == [a[0]] + a[1..] == b;
        }
      }
    }
  }

  lemma {:induction false} LessTransitive(a: string, b: string, c: string)
    requires Less(a, b) && Less(b, c)
    ensures Less(a, c)
    decreases |a|
  {
    if a != "" && a[0] == b[0] && b[0] == c[0] {
      LessTransitive(a[1..], b[1..], c[1..]);
    }
  }

  predicate Sorted(names: seq<string>) {
    forall i, j :: 0 <= i < j < |names| ==> Less(names[i], names[j])
  }

  /** The rendered entries, sorted by name, of a node and of all nodes below. */
  predicate Renders(fields: seq<FieldLiteral>, t: Trie)
    decreases fields
  {
    && (forall i, j :: 0 <= i < j < |fields| ==> Less(fields[i].name, fields[j].name))
    && (forall k :: k in t.children ==> exists i :: 0 <= i < |fields| && fields[i].name == k)
    && (forall i :: 0 <= i < |fields| ==> fields[i].name in t.children && Renders(fields[i].children, t.children[fields[i].name]))
  }

  method SortNames(keys: set<string>) returns (names: seq<string>)
    ensures Sorted(names) && forall n :: n in names <==> n in keys
  {
    names := [];
    var rest := keys;
    while rest != {}
      invariant rest <= keys && Sorted(names) && forall n :: n in names <==> n in keys && n !in rest
      decreases rest
    {
      var n :| n in rest;
      names := InsertSorted(names, n);
      rest := rest - {n};
    }
  }

  method InsertSorted(names: seq<string>, n: string) returns (r: seq<string>)
    requires Sorted(names) && n !in names
    ensures Sorted(r) && forall x :: x in r <==> x in names || x == n
  {
    var i := 0;
    while i < |names| && Less(names[i], n)
      invariant i <= |names| && forall k :: 0 <= k < i ==> Less(names[k], n)
    {
      i := i + 1;
    }
    forall k | i <= k < |names| ensures Less(n, names[k]) {
      assert names[k] in names;
      LessTotal(n, names[i]);
      assert names[i] in names;
      if k > i {
        LessTransitive(n, names[i], names[k]);
      }
    }
    r := names[..i] + [n] + names[i..];
    assert names == names[..i] + names[i..];
  }

  method Render(t: Trie) returns (fields: seq<FieldLiteral>)
    ensures Renders(fields, t)
    decreases t
  {
    var names := SortNames(t.children.Keys);
    fields := [];
    for i := 0 to |names|
      invariant |fields| == i && forall j :: 0 <= j < i ==>
        fields[j].name == names[j] && names[j] in t.children && Renders(fields[j].children, t.children[names[j]])
    {
      assert names[i] in names;
      var children := Render(t.children[names[i]]);
      fields := fields + [FieldLiteral(names[i], children)];
    }
    forall k | k in t.children ensures exists i :: 0 <= i < |fields| && fields[i].name == k {
      assert k in names;
      var i :| 0 <= i < |names| && names[i] == k;
      assert fields[i].name == k;
    }
  }

  lemma {:induction false} SmallestFirst(a: seq<FieldLiteral>, b: seq<FieldLiteral>, t: Trie, i: nat)
    requires Renders(a, t) && Renders(b, t) && i <= |a| && i <= |b|
    requires forall j :: 0 <= j < i ==> a[j].name == b[j].name
    requires i < |a|
    ensures i < |b| && (b[i].name == a[i].name || Less(b[i].name, a[i].name))
  {
    hide Less;
    var j := Listed(a, b, t, i);
    if i <= j {
      assert i < j ==> Less(b[i].name, b[j].name);
    } else {
      assert Less(a[j].name, a[i].name);
      LessTotal(a[i].name, a[i].name);
      assert false;
    }
  }

  lemma {:induction false} Listed(a: seq<FieldLiteral>, b: seq<FieldLiteral>, t: Trie, i: nat) returns (j: nat)
    requires Renders(a, t) && Renders(b, t) && i < |a|
    ensures j < |b| && b[j].name == a[i].name
  {
    hide Less;
    assert a[i].name in t.children;
    j :| 0 <= j < |b| && b[j].name == a[i].name;
  }

  /** There is only one rendering of a tree. */
  lemma {:induction false} RenderingUnique(a: seq<FieldLiteral>, b: seq<FieldLiteral>, t: Trie)
    requires Renders(a, t) && Renders(b, t)
    ensures a == b
    decreases t
  {
    NamesAgree(a, b, t, |a|);
    NamesAgree(b, a, t, |b|);
    forall i | 0 <= i < |a| ensures a[i] == b[i] {
      RenderingUnique(a[i].children, b[i].children, t.children[a[i].name]);
    }
  }

  lemma {:induction false} NamesAgree(a: seq<FieldLiteral>, b: seq<FieldLiteral>, t: Trie, n: nat)
    requires Renders(a, t) && Renders(b, t) && n <= |a|
    ensures n <= |b| && forall i :: 0 <= i < n ==> a[i].name == b[i].name
    decreases n
  {
    hide Less, Renders;
    if n > 0 {
      NamesAgree(a, b, t, n - 1);
      SmallestFirst(a, b, t, n - 1);
      SmallestFirst(b, a, t, n - 1);
      LessTotal(a[n - 1].name, b[n - 1].name);
    }
  }

  /** The literal does not depend on the order of the paths or on repetitions. */
  lemma {:induction false} LiteralOfSet(paths: seq<Path>, others: seq<Path>, a: seq<FieldLiteral>, b: seq<FieldLiteral>)
    requires forall p :: p in paths <==> p in others
    requires Renders(a, Build(paths)) && Renders(b, Build(others))
    ensures a == b
  {
    hide Renders, Build;
    SubsetCovered(paths, others);
    SubsetCovered(others, paths);
    TreeOfCoveringPaths(paths, others);
    RenderingUnique(a, b, Build(paths));
  }

  /** The literal compiled from pruned paths is the literal of the tree of all paths. */
  method CompileSelection(paths: seq<Path>) returns (literal: seq<FieldLiteral>)
    ensures Renders(literal, Build(paths))
  {
    hide Renders, Build, Antichain, AllCovered;
    var pruned := Prune(paths);
    SubsetCovered(pruned, paths);
    TreeOfCoveringPaths(paths, pruned);
    var t := BuildTree(pruned);
    literal := Render(t);
  }

  method BuildTree(paths: seq<Path>) returns (t: Trie)
    ensures t == Build(paths)
  {
    t := EMPTY;
    for i := 0 to |paths|
      invariant t == Build(paths[..i])
    {
      assert paths[..i + 1][..i] == paths[..i];
      t := Insert(t, paths[i]);
    }
    assert paths[..|paths|] == paths;
  }
}
