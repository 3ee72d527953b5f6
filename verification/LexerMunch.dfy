/**
 Maximal munch: every token takes the longest spelling that stands where it starts, and what stands
 there decides its kind.
 */
module LexerMunch {
  import opened LexerModel

  // ---------------------------------------------------------------- spellings

  const ONE_RUNE := ":()[],@+*%.?=!><-/"

  const TWO_RUNES: seq<string> := ["+=", "*=", "%=", "..", "?:", "?.", "==", "!=", "!:", ">=", "<=", "<-", "&&", "||", "->", "-=", "/="]

  /** The operators and the punctuation of the language. */
  predicate Spelling(s: string) { (|s| == 1 && s[0] in ONE_RUNE) || s in TWO_RUNES || s == "..." }

  /** The text is in the source at this offset. */
  predicate Stands(src: string, p: nat, s: string) { p + |s| <= |src| && src[p..p + |s|] == s }

  predicate StartsComment(src: string, p: nat) { Stands(src, p, "//") || Stands(src, p, "/*") }

  predicate SpelledPair(c: char, d: char) {
    || (d == '=' && c in "+*%=!><-/")
    || (c == '.' && d == '.') || (c == '?' && (d == ':' || d == '.')) || (c == '!' && d == ':')
    || (c == '<' && d == '-') || (c == '-' && d == '>') || (c == '&' && d == '&') || (c == '|' && d == '|')
  }

  lemma {:induction false} PairSpelled(s: string)
    ensures s in TWO_RUNES <==> |s| == 2 && SpelledPair(s[0], s[1])
  {
    if s in TWO_RUNES {
      var i :| 0 <= i < |TWO_RUNES| && TWO_RUNES[i] == s;
    }
    if |s| == 2 && SpelledPair(s[0], s[1]) {
      assert s == [s[0], s[1]];
      if s[1] == '=' {
        assert s == TWO_RUNES[0] || s == TWO_RUNES[1] || s == TWO_RUNES[2] || s == TWO_RUNES[6] || s == TWO_RUNES[7] ||
          s == TWO_RUNES[9] || s == TWO_RUNES[10] || s == TWO_RUNES[15] || s == TWO_RUNES[16];
      } else {
        assert s == TWO_RUNES[3] || s == TWO_RUNES[4] || s == TWO_RUNES[5] || s == TWO_RUNES[8] || s == TWO_RUNES[11] ||
          s == TWO_RUNES[12] || s == TWO_RUNES[13] || s == TWO_RUNES[14];
      }
    }
  }

  /** How long the operator is, by the runes that stand there. */
  lemma {:induction false} OperatorLength(src: string, p: nat)
    ensures var (c, d, e) := (Peek(src, p), Peek(src, p + 1), Peek(src, p + 2)); var op := Operator(src, p);
      && |op| <= 3
      && (|op| == 3 <==> c == '.' && d == '.' && e == '.')
      && (|op| >= 2 <==> SpelledPair(c, d))
      && (|op| >= 1 <==> (c in "+*%.?=!><-/" && !(c == '/' && (d == '/' || d == '*'))) || SpelledPair(c, d))
  {
  }

  lemma {:induction false} StandsRunes(src: string, p: nat, s: string)
    requires Stands(src, p, s) && '\0' !in s
    ensures forall k :: 0 <= k < |s| ==> Peek(src, p + k) == s[k]
  {
    forall k | 0 <= k < |s| ensures Peek(src, p + k) == s[k] {
      assert src[p..p + |s|][k] == s[k];
    }
  }

  lemma {:induction false} RunesStand(src: string, p: nat, s: string)
    requires p <= |src| && '\0' !in s && forall k :: 0 <= k < |s| ==> Peek(src, p + k) == s[k]
    ensures Stands(src, p, s)
  {
    if s != [] {
      assert s[|s| - 1] in s;
      assert Peek(src, p + (|s| - 1)) != '\0';
      assert src[p..p + |s|] == s;
    }
  }

  lemma {:induction false} CommentRunes(src: string, p: nat)
    requires p <= |src|
    ensures StartsComment(src, p) <==> Peek(src, p) == '/' && (Peek(src, p + 1) == '/' || Peek(src, p + 1) == '*')
  {
    if Stands(src, p, "//") {
      StandsRunes(src, p, "//");
    }
    if Stands(src, p, "/*") {
      StandsRunes(src, p, "/*");
    }
    if Peek(src, p) == '/' && Peek(src, p + 1) == '/' {
      RunesStand(src, p, "//");
    }
    if Peek(src, p) == '/' && Peek(src, p + 1) == '*' {
      RunesStand(src, p, "/*");
    }
  }

  /** A spelling, told rune by rune. */
  lemma {:induction false} SpellingRunes(s: string)
    ensures Spelling(s) <==>
      || (|s| == 1 && s[0] in ONE_RUNE)
      || (|s| == 2 && SpelledPair(s[0], s[1]))
      || (|s| == 3 && s[0] == '.' && s[1] == '.' && s[2] == '.')
    ensures Spelling(s) ==> '\0' !in s
  {
    PairSpelled(s);
    hide SpelledPair;
    if |s| == 3 && s[0] == '.' && s[1] == '.' && s[2] == '.' {
      assert s == "...";
    }
    assert '\0' !in ONE_RUNE;
    if s in TWO_RUNES {
      NoRuneZero(s);
    }
  }

  lemma {:induction false} NoRuneZero(s: string)
    requires s in TWO_RUNES
    ensures '\0' !in s
  {
  }

  /** A symbol is the longest spelling that stands there; none stands there if there is no symbol. */
  ghost predicate Longest(src: string, p: nat, op: string) {
    && (op != "" ==> Spelling(op) && Stands(src, p, op))
    && forall s :: Spelling(s) && Stands(src, p, s) ==> |s| <= |op|
  }

  lemma {:induction false} OperatorLongest(src: string, p: nat)
    requires p < |src| && !IsPunctuation(src[p])
    ensures StartsComment(src, p) ==> Operator(src, p) == ""
    ensures !StartsComment(src, p) ==> Longest(src, p, Operator(src, p))
  {
    OperatorInSource(src, p);
    OperatorLength(src, p);
    CommentRunes(src, p);
    assert !SpelledPair('/', '/') && !SpelledPair('/', '*');
    hide Operator, SpelledPair, Spelling, Stands, StartsComment;
    var op := Operator(src, p);
    if !StartsComment(src, p) {
      if op != "" {
        assert Stands(src, p, op) by { OperatorStands(src, p); }
        OperatorSpelled(src, p);
      }
      forall s | Spelling(s) && Stands(src, p, s) ensures |s| <= |op| {
        SpellingRunes(s);
        StandsRunes(src, p, s);
        assert s[0] == Peek(src, p + 0);
        if |s| >= 2 {
          assert s[1] == Peek(src, p + 1);
        }
        if |s| >= 3 {
          assert s[2] == Peek(src, p + 2);
        }
      }
    }
  }

  lemma {:induction false} OperatorStands(src: string, p: nat)
    requires Operator(src, p) != ""
    ensures Stands(src, p, Operator(src, p))
  {
    OperatorInSource(src, p);
    hide Operator;
  }

  lemma {:induction false} OperatorSpelled(src: string, p: nat)
    requires p < |src| && !IsPunctuation(src[p]) && Operator(src, p) != ""
    ensures Spelling(Operator(src, p))
  {
    OperatorLength(src, p);
    OperatorInSource(src, p);
    var op := Operator(src, p);
    SpellingRunes(op);
    hide Operator, SpelledPair, Spelling;
    assert op[0] == src[p..p + |op|][0] == Peek(src, p);
    if |op| >= 2 {
      assert op[1] == src[p..p + |op|][1] == Peek(src, p + 1);
    }
    if |op| >= 3 {
      assert op[2] == src[p..p + |op|][2] == Peek(src, p + 2);
    }
  }

  // ---------------------------------------------------------------- words and numbers

  predicate IsWordPart(letter: char -> bool, c: char) { letter(c) || '0' <= c <= '9' || c == '_' }

  predicate AllDigits(s: string) { forall k :: 0 <= k < |s| ==> '0' <= s[k] <= '9' }

  const UNITS := ["d", "h", "s", "m", "ms"]

  /** The readings of a number: digits; digits, a dot and possibly more digits; digits and a unit. */
  predicate Reads(kind: Kind, s: string) {
    match kind
    case IntToken => s != [] && AllDigits(s)
    case FloatToken => exists k :: 0 < k < |s| && AllDigits(s[..k]) && s[k] == '.' && AllDigits(s[k + 1..])
    case DurationToken => exists k :: 0 < k < |s| && AllDigits(s[..k]) && s[k..] in UNITS
    case _ => false
  }

  /** The number can be read there; a fraction does not start with a dot of a range. */
  predicate ReadsAt(src: string, p: nat, kind: Kind, s: string) {
    && Stands(src, p, s) && Reads(kind, s)
    && (kind.FloatToken? ==> forall k :: 0 <= k < |s| && s[k] == '.' ==> Peek(src, p + k + 1) != '.')
  }

  ghost predicate LongestNumber(src: string, p: nat, kind: Kind, s: string) {
    && ReadsAt(src, p, kind, s)
    && forall other, t :: ReadsAt(src, p, other, t) ==> |t| < |s| || (other == kind && t == s)
  }

  lemma {:induction false} DigitsEndIs(src: string, p: nat)
    requires p <= |src|
    ensures var q := DigitsEnd(src, p);
      (forall k :: p <= k < q ==> '0' <= src[k] <= '9') && !('0' <= Peek(src, q) <= '9')
    decreases |src| - p
  {
    if p < |src| && IsDigit(src[p]) {
      DigitsEndIs(src, p + 1);
    }
  }

  lemma {:induction false} WordEndIs(src: string, letter: char -> bool, p: nat)
    requires p <= |src|
    ensures var q := WordEnd(src, letter, p);
      (forall k :: p <= k < q ==> IsWordPart(letter, src[k])) && (q < |src| ==> !IsWordPart(letter, src[q]))
    decreases |src| - p
  {
    if p < |src| && IsWordRune(letter, src[p]) {
      WordEndIs(src, letter, p + 1);
    }
  }

  lemma {:induction false} StandsTail(src: string, p: nat, s: string, k: nat)
    requires Stands(src, p, s) && k <= |s|
    ensures Stands(src, p + k, s[k..])
    ensures forall j :: 0 <= j < |s| ==> s[j] == src[p + j]
  {
    forall j | 0 <= j < |s| ensures s[j] == src[p + j] {
      assert s[j] == src[p..p + |s|][j];
    }
    assert src[p + k..p + k + |s[k..]|] == s[k..];
  }

  /** The digits at the start of a reading are those that stand there, up to the first rune that is none. */
  lemma {:induction false} SameDigits(src: string, p: nat, q: nat, s: string, k: nat)
    requires Stands(src, p, s) && p <= q <= |src| && k <= |s|
    requires forall j :: p <= j < q ==> '0' <= src[j] <= '9'
    requires !('0' <= Peek(src, q) <= '9') && AllDigits(s[..k])
    ensures k <= q - p
    ensures k < |s| && !('0' <= s[k] <= '9') ==> k == q - p
  {
    StandsTail(src, p, s, k);
    forall j | 0 <= j < k ensures '0' <= s[j] <= '9' {
      assert s[..k][j] == s[j];
    }
    hide Stands, AllDigits;
    var n := q - p;
    assert n < |s| ==> s[n] == src[q] == Peek(src, q);
  }

  /** The digits from `p` on end at `q`. */
  predicate DigitRun(src: string, p: nat, q: nat) {
    && p < q <= |src| && (forall j :: p <= j < q ==> '0' <= src[j] <= '9') && !('0' <= Peek(src, q) <= '9')
  }

  lemma {:induction false} IntReading(src: string, p: nat, q: nat, t: string)
    requires DigitRun(src, p, q) && ReadsAt(src, p, IntToken, t)
    ensures |t| <= q - p
  {
    assert t[..|t|] == t;
    SameDigits(src, p, q, t, |t|);
  }

  lemma {:induction false} DigitsStand(src: string, p: nat, s: string)
    requires Stands(src, p, s) && AllDigits(s)
    ensures |s| <= DigitsEnd(src, p) - p
  {
    DigitsEndIs(src, p);
    assert s[..|s|] == s;
    SameDigits(src, p, DigitsEnd(src, p), s, |s|);
  }

  lemma {:induction false} FloatReading(src: string, p: nat, q: nat, t: string)
    requires DigitRun(src, p, q) && ReadsAt(src, p, FloatToken, t)
    ensures Peek(src, q) == '.' && Peek(src, q + 1) != '.'
    ensures q - p < |t| <= DigitsEnd(src, q + 1) - p
  {
    hide AllDigits, DigitsEnd, Stands;
    var k :| 0 < k < |t| && AllDigits(t[..k]) && t[k] == '.' && AllDigits(t[k + 1..]);
    SameDigits(src, p, q, t, k);
    StandsTail(src, p, t, k + 1);
    StandsWithin(src, p, t);
    assert t[k] == src[q];
    DigitsStand(src, q + 1, t[k + 1..]);
  }

  lemma {:induction false} StandsWithin(src: string, p: nat, s: string)
    requires Stands(src, p, s)
    ensures p + |s| <= |src|
  {
  }

  lemma {:induction false} DurationReading(src: string, p: nat, q: nat, t: string)
    requires DigitRun(src, p, q) && ReadsAt(src, p, DurationToken, t)
    ensures Peek(src, q) in "dhsm"
    ensures q - p < |t| <= (if Peek(src, q) == 'm' && Peek(src, q + 1) == 's' then 2 else 1) + q - p
  {
    var k :| 0 < k < |t| && AllDigits(t[..k]) && t[k..] in UNITS;
    var unit := t[k..];
    assert unit == "d" || unit == "h" || unit == "s" || unit == "m" || unit == "ms";
    hide AllDigits;
    assert t[k] == unit[0];
    SameDigits(src, p, q, t, k);
    StandsTail(src, p, t, k);
    hide Stands;
    if unit == "ms" {
      assert t[k + 1] == unit[1] == src[q + 1];
    }
  }

  lemma {:induction false} DigitsRead(src: string, p: nat, q: nat, e: nat)
    requires DigitRun(src, p, q) && q <= e <= |src|
    ensures Stands(src, p, src[p..e]) && AllDigits(src[p..e][..q - p]) && src[p..e][q - p..] == src[q..e]
  {
  }

  lemma {:induction false} FloatReads(src: string, p: nat, q: nat)
    requires DigitRun(src, p, q) && Peek(src, q) == '.' && Peek(src, q + 1) != '.'
    ensures ReadsAt(src, p, FloatToken, src[p..DigitsEnd(src, q + 1)])
  {
    var e := DigitsEnd(src, q + 1);
    var s, k := src[p..e], q - p;
    DigitsEndIs(src, q + 1);
    DigitsRead(src, p, q, e);
    StandsTail(src, p, s, k);
    hide DigitsEnd, Stands;
    assert s[k] == '.';
    assert AllDigits(s[k + 1..]);
    forall j | 0 <= j < |s| && s[j] == '.' ensures Peek(src, p + j + 1) != '.' {
      assert j == k;
    }
  }

  lemma {:induction false} DurationReads(src: string, p: nat, q: nat, e: nat)
    requires DigitRun(src, p, q) && q < e <= |src| && src[q..e] in UNITS
    ensures ReadsAt(src, p, DurationToken, src[p..e])
  {
    DigitsRead(src, p, q, e);
    hide Stands, AllDigits;
    assert src[p..e][q - p..] in UNITS;
  }

  lemma {:induction false} IsUnit(src: string, q: nat, e: nat)
    requires q < e <= |src|
    requires (e == q + 1 && src[q] in "dhsm") || (e == q + 2 && src[q] == 'm' && src[q + 1] == 's')
    ensures src[q..e] in UNITS
  {
    var unit := src[q..e];
    assert unit == if e == q + 1 then [src[q]] else [src[q], src[q + 1]];
    assert unit == UNITS[0] || unit == UNITS[1] || unit == UNITS[2] || unit == UNITS[3] || unit == UNITS[4];
  }

  lemma {:induction false} NumberReads(src: string, p: nat, depth: int, stack: seq<int>)
    requires p < |src| && IsDigit(src[p])
    ensures var x := NumberLexeme(src, p, depth, stack);
      && DigitRun(src, p, DigitsEnd(src, p + 1)) && x.end == p + |x.val|
      && ReadsAt(src, p, x.kind, x.val) && x.kind in {IntToken, FloatToken, DurationToken}
  {
    var x, q := NumberLexeme(src, p, depth, stack), DigitsEnd(src, p + 1);
    DigitsEndIs(src, p + 1);
    hide DigitsEnd, ReadsAt, AllDigits;
    assert DigitRun(src, p, q);
    match x.kind
    case FloatToken => FloatReads(src, p, q);
    case DurationToken =>
      IsUnit(src, q, x.end);
      DurationReads(src, p, q, x.end);
    case _ => IntReads(src, p, q);
  }

  lemma {:induction false} IntReads(src: string, p: nat, q: nat)
    requires DigitRun(src, p, q)
    ensures ReadsAt(src, p, IntToken, src[p..q])
  {
  }

  /** A number is the longest reading of what stands there. */
  lemma {:induction false} NumberLongest(src: string, p: nat, depth: int, stack: seq<int>)
    requires p < |src| && IsDigit(src[p])
    ensures var x := NumberLexeme(src, p, depth, stack);
      x.end == p + |x.val| && x.kind in {IntToken, FloatToken, DurationToken} && LongestNumber(src, p, x.kind, x.val)
  {
    NumberReads(src, p, depth, stack);
    var x, q := NumberLexeme(src, p, depth, stack), DigitsEnd(src, p + 1);
    assert ReadsAt(src, p, x.kind, x.val) ==> Stands(src, p, x.val);
    assert forall other, t :: ReadsAt(src, p, other, t) ==> Stands(src, p, t) && Reads(other, t);
    hide ReadsAt, DigitsEnd;
    forall other, t | ReadsAt(src, p, other, t) ensures |t| < |x.val| || (other == x.kind && t == x.val) {
      match other
      case IntToken => IntReading(src, p, q, t);
      case FloatToken => FloatReading(src, p, q, t);
      case DurationToken => DurationReading(src, p, q, t);
      case _ =>
    }
  }

  // ---------------------------------------------------------------- tokens

  ghost predicate Spelled(src: string, p: nat) { exists s :: Spelling(s) && Stands(src, p, s) }

  predicate IsNumber(k: Kind) { k.IntToken? || k.FloatToken? || k.DurationToken? }

  predicate CanSpell(c: char) { c in ":()[],@+*%.?=!><-/&|" }

  predicate Delimits(c: char) { c == '{' || c == '}' || c == '"' || c == '&' || c == '|' }

  /** A letter or underscore that starts nothing else. */
  ghost predicate WordStarts(src: string, letter: char -> bool, p: nat) {
    && p < |src| && (letter(src[p]) || src[p] == '_') && !IsDigit(src[p]) && !Delimits(src[p])
    && !Spelled(src, p) && !StartsComment(src, p)
  }

  predicate Word(src: string, letter: char -> bool, p: nat, e: nat) {
    && p < e <= |src| && !('0' <= src[p] <= '9')
    && (forall k :: p <= k < e ==> IsWordPart(letter, src[k])) && (e < |src| ==> !IsWordPart(letter, src[e]))
  }

  /** What stands at the start of the token decides whether it is a symbol, a number or a word, and these
      reach as far as they can. */
  ghost predicate Munched(src: string, letter: char -> bool, t: Span) {
    && (Spelled(src, t.start) && !StartsComment(src, t.start) <==> t.kind.Symbol?)
    && (t.kind.Symbol? ==> t.kind.text == t.val && t.val != "" && t.end == t.start + |t.val| && Longest(src, t.start, t.val))
    && (IsDigit(Peek(src, t.start)) <==> IsNumber(t.kind))
    && (IsNumber(t.kind) ==> t.end == t.start + |t.val| && LongestNumber(src, t.start, t.kind, t.val))
    && (WordStarts(src, letter, t.start) ==> t.kind.WordToken?)
    && (t.kind.WordToken? ==> Word(src, letter, t.start, t.end) && t.val == src[t.start..t.end])
    && (t.kind.Comment? || t.kind.DocComment? ==> StartsComment(src, t.start))
  }

  lemma {:induction false} RunesApart(c: char)
    ensures CanSpell(c) ==> !IsDigit(c) && c != '\0' && c != '{' && c != '}' && c != '"'
    ensures IsPunctuation(c) ==> CanSpell(c) && c != '/' && c != '&' && c != '|' && c != '.'
    ensures c == '/' || c == '&' || c == '|' ==> CanSpell(c)
    ensures IsPunctuation(c) ==> forall d :: !SpelledPair(c, d)
    ensures c in ONE_RUNE ==> CanSpell(c)
    ensures forall d :: SpelledPair(c, d) ==> CanSpell(c)
  {
  }

  lemma {:induction false} SpelledFirst(src: string, p: nat, s: string)
    requires Spelling(s) && Stands(src, p, s)
    ensures p < |src| && CanSpell(src[p])
    ensures IsPunctuation(src[p]) ==> |s| == 1
  {
    SpellingRunes(s);
    assert s != [] ==> src[p..p + |s|][0] == s[0];
    if s != [] {
      RunesApart(s[0]);
    }
    assert CanSpell('.');
    hide Spelling, CanSpell, IsPunctuation, SpelledPair, ONE_RUNE, TWO_RUNES;
  }

  lemma {:induction false} NotSpelled(src: string, p: nat)
    requires p <= |src| && !CanSpell(Peek(src, p))
    ensures !Spelled(src, p) && !StartsComment(src, p)
  {
    CommentRunes(src, p);
    RunesApart('/');
    hide Stands, Spelling, CanSpell, StartsComment;
    if s :| Spelling(s) && Stands(src, p, s) {
      SpelledFirst(src, p, s);
    }
  }

  lemma {:induction false} LongestSpelled(src: string, letter: char -> bool, p: nat, op: string)
    requires op != "" && Longest(src, p, op)
    ensures Spelled(src, p) && !IsDigit(Peek(src, p)) && !WordStarts(src, letter, p)
  {
    hide Spelling, Stands;
    SpelledFirst(src, p, op);
    RunesApart(src[p]);
    hide CanSpell, SpelledPair, IsPunctuation, ONE_RUNE;
  }

  lemma {:induction false} SymbolMunched(src: string, letter: char -> bool, t: Span)
    requires t.kind.Symbol? && t.kind.text == t.val && t.val != "" && t.end == t.start + |t.val|
    requires Longest(src, t.start, t.val) && !StartsComment(src, t.start)
    ensures Munched(src, letter, t)
  {
    hide Longest, StartsComment, Spelled, LongestNumber, Word, IsDigit, WordStarts, Peek, Spelling, Stands;
    LongestSpelled(src, letter, t.start, t.val);
  }

  lemma {:induction false} PunctuationLongest(src: string, p: nat)
    requires p < |src| && IsPunctuation(src[p])
    ensures Longest(src, p, [src[p]]) && !StartsComment(src, p)
  {
    CommentRunes(src, p);
    RunesApart(src[p]);
    assert Spelling([src[p]]);
    assert Stands(src, p, [src[p]]);
    hide Stands, Spelling, StartsComment, IsPunctuation, CanSpell, SpelledPair;
    forall s | Spelling(s) && Stands(src, p, s) ensures |s| <= 1 {
      SpelledFirst(src, p, s);
    }
  }

  /** No symbol stands where no operator is found, unless it starts a comment. */
  lemma {:induction false} NoOperator(src: string, p: nat)
    requires p < |src| && !IsPunctuation(src[p]) && Operator(src, p) == ""
    ensures StartsComment(src, p) || !Spelled(src, p)
  {
    OperatorLongest(src, p);
    hide Operator, Stands, StartsComment, Spelling, IsPunctuation;
    if s :| Spelling(s) && Stands(src, p, s) {
      SpellingRunes(s);
      hide SpelledPair, ONE_RUNE;
    }
  }

  /** Where neither a symbol, a number nor a word is read. */
  lemma {:induction false} OtherMunched(src: string, letter: char -> bool, t: Span)
    requires !t.kind.Symbol? && !IsNumber(t.kind) && !t.kind.WordToken?
    requires t.start <= |src| && !IsDigit(Peek(src, t.start)) && (StartsComment(src, t.start) || !Spelled(src, t.start))
    requires t.kind.Comment? || t.kind.DocComment? ==> StartsComment(src, t.start)
    requires t.start < |src| ==> Delimits(src[t.start]) || StartsComment(src, t.start) || !(letter(src[t.start]) || src[t.start] == '_')
    ensures Munched(src, letter, t)
  {
    hide Longest, StartsComment, Spelled, LongestNumber, Word, Delimits, IsDigit;
  }

  lemma {:induction false} NumberMunched(src: string, letter: char -> bool, p: nat, depth: int, stack: seq<int>)
    requires p < |src| && IsDigit(src[p]) && !Spelled(src, p)
    ensures var x := NumberLexeme(src, p, depth, stack); Munched(src, letter, Span(x.kind, x.val, p, x.end, x.error))
  {
    NumberLongest(src, p, depth, stack);
    hide Longest, StartsComment, Spelled, LongestNumber, Word, Delimits, NumberLexeme;
  }

  lemma {:induction false} WordMunched(src: string, letter: char -> bool, p: nat)
    requires p < |src| && (letter(src[p]) || src[p] == '_') && !IsDigit(src[p]) && !Spelled(src, p)
    ensures var e := WordEnd(src, letter, p + 1); Munched(src, letter, Span(WordToken, src[p..e], p, e, ""))
  {
    WordEndIs(src, letter, p + 1);
    hide Longest, StartsComment, Spelled, LongestNumber, Delimits, WordEnd;
  }

  lemma {:induction false} PlainMunched(src: string, letter: char -> bool, p: nat, depth: int, stack: seq<int>)
    requires p < |src| && src[p] != '\0' && src[p] != '{' && src[p] != '}' && src[p] != '"'
    ensures var x := PlainLexeme(src, letter, p, depth, stack); Munched(src, letter, Span(x.kind, x.val, p, x.end, x.error))
  {
    var c := src[p];
    CommentRunes(src, p);
    RunesApart(c);
    if IsPunctuation(c) {
      PunctuationLongest(src, p);
      SymbolMunched(src, letter, Span(Symbol([c]), [c], p, p + 1, ""));
    } else if Operator(src, p) != "" {
      OperatorLongest(src, p);
      OperatorInSource(src, p);
      SymbolMunched(src, letter, Span(Symbol(Operator(src, p)), Operator(src, p), p, p + |Operator(src, p)|, ""));
    } else {
      NoOperator(src, p);
      OthersMunched(src, letter, p, depth, stack);
    }
  }

  lemma {:induction false} OthersMunched(src: string, letter: char -> bool, p: nat, depth: int, stack: seq<int>)
    requires p < |src| && src[p] != '\0' && src[p] != '{' && src[p] != '}' && src[p] != '"'
    requires !IsPunctuation(src[p]) && Operator(src, p) == "" && (StartsComment(src, p) || !Spelled(src, p))
    ensures var x := PlainLexeme(src, letter, p, depth, stack); Munched(src, letter, Span(x.kind, x.val, p, x.end, x.error))
  {
    var c := src[p];
    CommentRunes(src, p);
    RunesApart(c);
    if c == '/' {
      SlashStartsComment(src, p);
    }
    hide Operator, IsPunctuation, Spelled, StartsComment, CanSpell, SpelledPair, ONE_RUNE, Munched, NumberLexeme, WordEnd, Block, LineEnd, SkipSpace;
    var x := PlainLexeme(src, letter, p, depth, stack);
    var t := Span(x.kind, x.val, p, x.end, x.error);
    if c == '&' || c == '|' || c == '/' {
      OtherMunched(src, letter, t);
    } else if IsDigit(c) {
      NumberMunched(src, letter, p, depth, stack);
    } else if letter(c) || c == '_' {
      WordMunched(src, letter, p);
    } else {
      OtherMunched(src, letter, t);
    }
  }

  lemma {:induction false} NextMunched(src: string, letter: char -> bool, p: nat, depth: int, stack: seq<int>)
    requires p <= |src| && !letter('\0')
    ensures var x := Next(src, letter, p, depth, stack); Munched(src, letter, Span(x.kind, x.val, p, x.end, x.error))
  {
    var c := Peek(src, p);
    RunesApart(c);
    hide Munched, PlainLexeme, StringLexeme, CanSpell, SpelledPair, IsPunctuation, ONE_RUNE;
    if c == '\0' || c == '{' || c == '}' || c == '"' {
      NotSpelled(src, p);
      var x := Next(src, letter, p, depth, stack);
      StringKind(src, p + 1, StringEnd, StringMid, depth - 1, if stack == [] then [] else Pop(stack));
      StringKind(src, p + 1, StringToken, StringStart, depth, stack);
      OtherMunched(src, letter, Span(x.kind, x.val, p, x.end, x.error));
    } else {
      PlainMunched(src, letter, p, depth, stack);
    }
  }

  lemma {:induction false} StringKind(src: string, p: nat, plain: Kind, interp: Kind, depth: int, stack: seq<int>)
    ensures p <= |src| ==> var k := StringLexeme(src, p, plain, interp, depth, stack).kind; k == plain || k == interp || k == Illegal
  {
  }

  /** Main result: every token of every source takes as much as can be read where it starts. */
  lemma {:induction false} LexMunches(src: string, letter: char -> bool, p: nat, depth: int, stack: seq<int>, i: nat)
    requires p <= |src| && LettersOnly(letter)
    ensures var spans := Lex(src, letter, p, depth, stack); i < |spans| ==> Munched(src, letter, spans[i])
    decreases |src| - p
  {
    hide Next, SkipSpace, Munched;
    var q := SkipSpace(src, p);
    var x := Next(src, letter, q, depth, stack);
    NextMunched(src, letter, q, depth, stack);
    if i > 0 && !x.kind.Eof? {
      LexMunches(src, letter, x.end, x.depth, x.stack, i - 1);
    }
  }
}
