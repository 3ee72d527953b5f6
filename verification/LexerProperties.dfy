/**
 What holds of every token sequence: it tiles the source, and between a piece of a string that opens
 an interpolation and the piece that closes it the braces are balanced.
 */
module LexerProperties {
  import opened LexerModel

  // ---------------------------------------------------------------- tiling

  predicate AllSpace(src: string, p: nat, q: nat)
    requires p <= q <= |src|
  {
    forall k :: p <= k < q ==> IsSpace(src[k])
  }

  /** From `p` on: non-empty tokens in order with only white space between them, up to one final
      end-of-file token at the end of the source or at a rune 0. */
  predicate Tiles(src: string, spans: seq<Span>, p: nat)
    requires p <= |src|
    decreases |spans|
  {
    && spans != [] && p <= spans[0].start <= spans[0].end <= |src| && AllSpace(src, p, spans[0].start)
    && if spans[0].kind.Eof? then |spans| == 1 && spans[0].start == spans[0].end && Peek(src, spans[0].start) == '\0'
       else spans[0].start < spans[0].end && Tiles(src, spans[1..], spans[0].end)
  }

  lemma {:induction false} SkipsSpace(src: string, p: nat)
    requires p <= |src|
    ensures AllSpace(src, p, SkipSpace(src, p)) && !IsSpace(Peek(src, SkipSpace(src, p)))
    decreases |src| - p
  {
    if p < |src| && IsSpace(src[p]) {
      SkipsSpace(src, p + 1);
    }
  }

  lemma {:induction false} EofMeansEnd(src: string, letter: char -> bool, p: nat, depth: int, stack: seq<int>)
    requires p <= |src|
    ensures var x := Next(src, letter, p, depth, stack); x.kind.Eof? <==> Peek(src, p) == '\0'
    ensures var x := Next(src, letter, p, depth, stack); x.kind.Eof? ==> x.end == p && x.val == "" && x.error == ""
  {
    PlainIsPlain(src, letter, p, depth, stack);
    hide PlainLexeme, StringLexeme;
    if Peek(src, p) == '"' {
      StringKinds(src, p + 1, StringToken, StringStart, depth, stack);
    } else if Peek(src, p) == '}' && stack != [] && depth == Top(stack) {
      StringKinds(src, p + 1, StringEnd, StringMid, depth - 1, Pop(stack));
    }
  }

  lemma {:induction false} StringKinds(src: string, p: nat, plain: Kind, interp: Kind, depth: int, stack: seq<int>)
    requires p <= |src|
    ensures StringLexeme(src, p, plain, interp, depth, stack).kind in {plain, interp, Illegal}
  {
  }

  predicate IsPlainKind(k: Kind) {
    match k
    case Eof => false
    case StringToken => false
    case StringStart => false
    case StringMid => false
    case StringEnd => false
    case LBrace => false
    case RBrace => false
    case _ => true
  }

  lemma {:induction false} PlainIsPlain(src: string, letter: char -> bool, p: nat, depth: int, stack: seq<int>)
    requires p <= |src|
    ensures p < |src| ==>
      var x := PlainLexeme(src, letter, p, depth, stack);
      IsPlainKind(x.kind) && x.depth == depth && x.stack == stack
  {
    hide Operator, Block, DigitsEnd, WordEnd, LineEnd, SkipSpace;
  }

  /** The tokens tile the source. */
  lemma {:induction false} LexTiles(src: string, letter: char -> bool, p: nat, depth: int, stack: seq<int>)
    requires p <= |src|
    ensures Tiles(src, Lex(src, letter, p, depth, stack), p)
    decreases |src| - p
  {
    hide Next, SkipSpace;
    var q := SkipSpace(src, p);
    var x := Next(src, letter, q, depth, stack);
    SkipsSpace(src, p);
    EofMeansEnd(src, letter, q, depth, stack);
    if !x.kind.Eof? {
      LexTiles(src, letter, x.end, x.depth, x.stack);
    }
  }

  /** Read as positions: increasing, disjoint, only white space between, and one end-of-file token, the last. */
  lemma {:induction false} TilesInOrder(src: string, spans: seq<Span>, p: nat, i: nat)
    requires p <= |src| && Tiles(src, spans, p) && i < |spans|
    ensures p <= spans[i].start <= spans[i].end <= |src|
    ensures spans[i].kind.Eof? <==> i == |spans| - 1
    ensures i < |spans| - 1 ==>
      spans[i].start < spans[i].end <= spans[i + 1].start <= |src| && AllSpace(src, spans[i].end, spans[i + 1].start)
    ensures i == |spans| - 1 ==> spans[i].start == spans[i].end && Peek(src, spans[i].end) == '\0'
    decreases |spans|
  {
    if i > 0 {
      TilesInOrder(src, spans[1..], spans[0].end, i - 1);
      assert spans[1..][i - 1] == spans[i];
    }
  }

  /** On a source without the rune 0 every rune is in exactly one token or is white space between tokens. */
  lemma {:induction false} TokensCoverSource(src: string, letter: char -> bool, k: nat)
    requires '\0' !in src && k < |src|
    ensures var spans := Lex(src, letter, 0, 0, []);
      IsSpace(src[k]) || exists i :: 0 <= i < |spans| && spans[i].start <= k < spans[i].end
    ensures var spans := Lex(src, letter, 0, 0, []);
      forall i, j :: 0 <= i < |spans| && 0 <= j < |spans| && spans[i].start <= k < spans[i].end && spans[j].start <= k < spans[j].end ==> i == j
    ensures var spans := Lex(src, letter, 0, 0, []);
      spans[|spans| - 1].kind.Eof? && spans[|spans| - 1].end == |src|
  {
    hide Lex;
    var spans := Lex(src, letter, 0, 0, []);
    LexTiles(src, letter, 0, 0, []);
    TilesInOrder(src, spans, 0, |spans| - 1);
    CoveredFrom(src, spans, 0, k);
    forall i, j | 0 <= i < j < |spans| ensures spans[i].end <= spans[j].start {
      Ordered(src, spans, 0, i, j);
    }
  }

  lemma {:induction false} Ordered(src: string, spans: seq<Span>, p: nat, i: nat, j: nat)
    requires p <= |src| && Tiles(src, spans, p) && i < j < |spans|
    ensures spans[i].end <= spans[j].start
    decreases j
  {
    TilesInOrder(src, spans, p, i);
    if i < j - 1 {
      Ordered(src, spans, p, i, j - 1);
      TilesInOrder(src, spans, p, j - 1);
    }
  }

  lemma {:induction false} CoveredFrom(src: string, spans: seq<Span>, p: nat, k: nat)
    requires '\0' !in src && p <= k < |src| && Tiles(src, spans, p)
    ensures IsSpace(src[k]) || exists i :: 0 <= i < |spans| && spans[i].start <= k < spans[i].end
    decreases |spans|
  {
    if spans[0].end <= k && !spans[0].kind.Eof? {
      CoveredFrom(src, spans[1..], spans[0].end, k);
      if !IsSpace(src[k]) {
        var i :| 0 <= i < |spans[1..]| && spans[1..][i].start <= k < spans[1..][i].end;
        assert spans[i + 1] == spans[1..][i];
      }
    }
  }

  // ---------------------------------------------------------------- nesting

  /** The state of the lexer between tokens, as far as interpolation goes. */
  datatype Nesting = Nesting(depth: int, stack: seq<int>)

  /** What a token does to it. */
  function Step(k: Kind, n: Nesting): Nesting {
    match k
    case LBrace => n.(depth := n.depth + 1)
    case RBrace => n.(depth := n.depth - 1)
    case StringStart => Nesting(n.depth + 1, n.stack + [n.depth + 1])
    case StringEnd => if n.stack == [] then n else Nesting(n.depth - 1, Pop(n.stack))
    case _ => n
  }

  /** Where a token can occur: a string resumes at the depth of its interpolation, and only there. */
  predicate Fits(k: Kind, n: Nesting) {
    var resumes := n.stack != [] && n.depth == Top(n.stack);
    match k
    case StringMid => resumes
    case StringEnd => resumes
    case RBrace => !resumes
    case _ => true
  }

  function Kinds(spans: seq<Span>): (kinds: seq<Kind>)
    ensures |kinds| == |spans| && forall i :: 0 <= i < |kinds| ==> kinds[i] == spans[i].kind
  {
    seq(|spans|, i requires 0 <= i < |spans| => spans[i].kind)
  }

  predicate Runs(kinds: seq<Kind>, n: Nesting)
    decreases |kinds|
  {
    kinds == [] || (Fits(kinds[0], n) && Runs(kinds[1..], Step(kinds[0], n)))
  }

  /** In every reachable state the interpolation stack is strictly increasing and bounded by the depth. */
  lemma {:induction false} NextKeepsNested(src: string, letter: char -> bool, p: nat, depth: int, stack: seq<int>)
    requires p <= |src| && Nested(stack, depth)
    ensures var x := Next(src, letter, p, depth, stack); Nested(x.stack, x.depth)
  {
    hide PlainLexeme, Body;
    PlainIsPlain(src, letter, p, depth, stack);
  }

  /** A token changes the state as `Step` says, unless it is an unterminated string, which ends the source. */
  lemma {:induction false} NextSteps(src: string, letter: char -> bool, p: nat, depth: int, stack: seq<int>)
    requires p <= |src|
    ensures var x := Next(src, letter, p, depth, stack);
      && Fits(x.kind, Nesting(depth, stack))
      && (Nesting(x.depth, x.stack) == Step(x.kind, Nesting(depth, stack)) || Peek(src, x.end) == '\0')
  {
    hide PlainLexeme, Body, Nested;
    PlainIsPlain(src, letter, p, depth, stack);
    var c := Peek(src, p);
    if c == '}' && stack != [] && depth == Top(stack) {
      BodyStops(src, p + 1);
      assert Pop(stack) + [depth] == stack;
    } else if c == '"' {
      BodyStops(src, p + 1);
    }
  }

  lemma {:induction false} BodyStops(src: string, p: nat)
    requires p <= |src|
    ensures Body(src, p).Unterminated? ==> Peek(src, Body(src, p).at) == '\0'
    decreases |src| - p
  {
    if Peek(src, p) == '\0' {
    } else if src[p] == '\\' {
      BodyStops(src, if p + 2 <= |src| then p + 2 else p + 1);
    } else if !(src[p] == '$' && Peek(src, p + 1) == '{') && src[p] != '"' {
      BodyStops(src, p + 1);
    }
  }

  /** So every token sequence is a run of that machine. */
  lemma {:induction false} LexRuns(src: string, letter: char -> bool, p: nat, depth: int, stack: seq<int>)
    requires p <= |src|
    ensures Runs(Kinds(Lex(src, letter, p, depth, stack)), Nesting(depth, stack))
    decreases |src| - p
  {
    hide Next, SkipSpace, Step, Fits;
    var q := SkipSpace(src, p);
    var x := Next(src, letter, q, depth, stack);
    NextSteps(src, letter, q, depth, stack);
    var spans := Lex(src, letter, p, depth, stack);
    assert Kinds(spans)[1..] == Kinds(spans[1..]);
    if !x.kind.Eof? {
      if Peek(src, x.end) == '\0' {
        EndsThere(src, letter, x.end, x.depth, x.stack);
        EofRuns(Step(x.kind, Nesting(depth, stack)));
        assert Kinds(spans[1..]) == [Eof];
      } else {
        LexRuns(src, letter, x.end, x.depth, x.stack);
      }
    } else {
      assert Kinds(spans[1..]) == [];
    }
  }

  lemma {:induction false} EndsThere(src: string, letter: char -> bool, p: nat, depth: int, stack: seq<int>)
    requires p <= |src| && Peek(src, p) == '\0'
    ensures Lex(src, letter, p, depth, stack) == [Span(Eof, "", p, p, "")]
  {
    hide PlainLexeme, StringLexeme;
  }

  lemma {:induction false} EofRuns(n: Nesting)
    ensures Runs([Eof], n)
  {
    assert [Eof][1..] == [];
  }

  // ---------------------------------------------------------------- balanced interpolations

  /** The piece that closes the interpolation opened before `j`, counting nested strings only. */
  function Match(kinds: seq<Kind>, j: nat, open: nat): (r: int)
    requires j <= |kinds| && open > 0
    ensures r == -1 || j <= r < |kinds|
    decreases |kinds| - j
  {
    if j == |kinds| then -1
    else match kinds[j]
      case StringStart => Match(kinds, j + 1, open + 1)
      case StringMid => if open == 1 then j else Match(kinds, j + 1, open)
      case StringEnd => if open == 1 then j else Match(kinds, j + 1, open - 1)
      case _ => Match(kinds, j + 1, open)
  }

  /** Opening minus closing braces among the tokens from `i` to before `j`. */
  function Braces(kinds: seq<Kind>, i: nat, j: nat): int
    requires i <= j <= |kinds|
    decreases j - i
  {
    if i == j then 0
    else Braces(kinds, i, j - 1) + (if kinds[j - 1].LBrace? then 1 else if kinds[j - 1].RBrace? then -1 else 0)
  }

  predicate Balanced(kinds: seq<Kind>, i: nat, j: nat)
    requires i <= j <= |kinds|
  {
    Braces(kinds, i, j) == 0 && forall k :: i <= k <= j ==> Braces(kinds, i, k) >= 0
  }

  /** The state after the first `k` tokens. */
  function StateAt(kinds: seq<Kind>, n: Nesting, k: nat): Nesting
    requires k <= |kinds|
  {
    if k == 0 then n else Step(kinds[k - 1], StateAt(kinds, n, k - 1))
  }

  lemma {:induction false} StateAtTail(kinds: seq<Kind>, n: Nesting, k: nat)
    requires 0 < k <= |kinds|
    ensures StateAt(kinds, n, k) == StateAt(kinds[1..], Step(kinds[0], n), k - 1)
    decreases k
  {
    if k > 1 {
      StateAtTail(kinds, n, k - 1);
      assert kinds[k - 1] == kinds[1..][k - 2];
    }
  }

  lemma {:induction false} RunsFits(kinds: seq<Kind>, n: Nesting, k: nat)
    requires Runs(kinds, n) && k < |kinds|
    ensures Fits(kinds[k], StateAt(kinds, n, k))
    decreases k
  {
    hide Fits, Step;
    if k > 0 {
      RunsFits(kinds[1..], Step(kinds[0], n), k - 1);
      StateAtTail(kinds, n, k);
      assert kinds[k] == kinds[1..][k - 1];
    }
  }

  lemma {:induction false} StepKeepsNested(k: Kind, n: Nesting)
    requires Nested(n.stack, n.depth) && Fits(k, n)
    ensures Nested(Step(k, n).stack, Step(k, n).depth)
  {
  }

  lemma {:induction false} StatesNested(kinds: seq<Kind>, n: Nesting, k: nat)
    requires Runs(kinds, n) && Nested(n.stack, n.depth) && k <= |kinds|
    ensures var s := StateAt(kinds, n, k); Nested(s.stack, s.depth)
    decreases k
  {
    hide Fits, Step, Nested;
    if k > 0 {
      StatesNested(kinds, n, k - 1);
      RunsFits(kinds, n, k - 1);
      StepKeepsNested(kinds[k - 1], StateAt(kinds, n, k - 1));
    }
  }

  /** Inside an interpolation: `base` is the stack on entering it, `open` counts the strings entered
      within and not left, and the depth exceeds the entry depth by those and by the open braces. */
  ghost predicate Inside(s: Nesting, base: seq<int>, open: nat, braces: int)
    requires base != []
  {
    && |s.stack| == |base| + open && s.stack[..|base|] == base
    && s.depth == Top(base) + open + braces
    && Nested(s.stack, s.depth)
  }

  lemma {:induction false} IncreasingGap(stack: seq<int>, i: nat, j: nat, depth: int)
    requires Nested(stack, depth) && i <= j < |stack|
    ensures stack[j] - stack[i] >= j - i
    decreases j - i
  {
    if i < j {
      IncreasingGap(stack, i, j - 1, depth);
    }
  }

  lemma {:induction false} InsideIsNotNegative(s: Nesting, base: seq<int>, open: nat, braces: int)
    requires base != [] && Inside(s, base, open, braces)
    ensures braces >= 0
  {
    IncreasingGap(s.stack, |base| - 1, |base| - 1 + open, s.depth);
    assert s.stack[..|base|][|base| - 1] == s.stack[|base| - 1];
  }

  /** One token that does not close the interpolation. */
  lemma {:induction false} InsideStep(k: Kind, s: Nesting, base: seq<int>, open: nat, braces: int)
    requires base != [] && Inside(s, base, open, braces) && Fits(k, s)
    requires !(open == 0 && (k.StringMid? || k.StringEnd?))
    ensures Inside(Step(k, s), base,
              if k.StringStart? then open + 1 else if k.StringEnd? then open - 1 else open,
              braces + (if k.LBrace? then 1 else if k.RBrace? then -1 else 0))
  {
    StepKeepsNested(k, s);
    if k.StringStart? {
      assert (s.stack + [s.depth + 1])[..|base|] == s.stack[..|base|];
    } else if k.StringEnd? {
      assert Pop(s.stack)[..|base|] == s.stack[..|base|];
    }
  }

  lemma {:induction false} BalancedFrom(kinds: seq<Kind>, n: Nesting, base: seq<int>, i: nat, j: nat, open: nat)
    requires Runs(kinds, n) && i <= j <= |kinds| && open > 0 && base != []
    requires Inside(StateAt(kinds, n, j), base, open - 1, Braces(kinds, i, j))
    requires forall k :: i <= k <= j ==> Braces(kinds, i, k) >= 0
    requires Match(kinds, j, open) != -1
    ensures Balanced(kinds, i, Match(kinds, j, open))
    decreases |kinds| - j
  {
    hide Runs, Inside, Step, Fits;
    RunsFits(kinds, n, j);
    var k, s := kinds[j], StateAt(kinds, n, j);
    if open == 1 && (k.StringMid? || k.StringEnd?) {
      ClosesAtTop(k, s, base, Braces(kinds, i, j));
    } else {
      InsideStep(k, s, base, open - 1, Braces(kinds, i, j));
      var open' := if k.StringStart? then open + 1 else if k.StringEnd? then open - 1 else open;
      InsideIsNotNegative(StateAt(kinds, n, j + 1), base, open' - 1, Braces(kinds, i, j + 1));
      BalancedFrom(kinds, n, base, i, j + 1, open');
    }
  }

  lemma {:induction false} ClosesAtTop(k: Kind, s: Nesting, base: seq<int>, braces: int)
    requires base != [] && Inside(s, base, 0, braces) && Fits(k, s) && (k.StringMid? || k.StringEnd?)
    ensures braces == 0
  {
    assert s.stack[..|base|] == s.stack;
  }

  /** Between "${" and the "}" that resumes the string the braces are balanced, in every token
      sequence, stray closing braces outside strings notwithstanding. */
  lemma {:induction false} InterpolationsBalanced(src: string, letter: char -> bool, i: nat)
    ensures var kinds := Kinds(Lex(src, letter, 0, 0, []));
      i < |kinds| && (kinds[i].StringStart? || kinds[i].StringMid?) && Match(kinds, i + 1, 1) != -1 ==>
      Balanced(kinds, i + 1, Match(kinds, i + 1, 1))
  {
    hide Lex, Runs, Inside, Fits, Match, Balanced;
    var kinds, n := Kinds(Lex(src, letter, 0, 0, [])), Nesting(0, []);
    LexRuns(src, letter, 0, 0, []);
    if i < |kinds| && (kinds[i].StringStart? || kinds[i].StringMid?) && Match(kinds, i + 1, 1) != -1 {
      var s := StateAt(kinds, n, i + 1);
      StatesNested(kinds, n, i + 1);
      RunsFits(kinds, n, i);
      Entered(kinds[i], StateAt(kinds, n, i));
      assert Braces(kinds, i + 1, i + 1) == 0;
      BalancedFrom(kinds, n, s.stack, i + 1, i + 1, 1);
    }
  }

  lemma {:induction false} Entered(k: Kind, s: Nesting)
    requires Fits(k, s) && (k.StringStart? || k.StringMid?) && Nested(Step(k, s).stack, Step(k, s).depth)
    ensures Step(k, s).stack != [] && Inside(Step(k, s), Step(k, s).stack, 0, 0)
  {
    var s' := Step(k, s);
    assert s'.stack[..|s'.stack|] == s'.stack;
  }
}
