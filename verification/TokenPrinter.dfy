/**
 The formatter's printing of strings: raw control characters are escaped, and the printed token is
 read back as one token of the same kind.
 */
module TokenPrinter {
  import opened LexerModel

  predicate IsControl(c: char) { c == '\n' || c == '\r' || c == '\t' }

  function EscapeRune(c: char): string {
    match c
    case '\n' => "\\n"
    case '\r' => "\\r"
    case '\t' => "\\t"
    case _ => [c]
  }

  function Escape(val: string): string {
    if val == "" then "" else EscapeRune(val[0]) + Escape(val[1..])
  }

  predicate HasControl(val: string) { exists i :: 0 <= i < |val| && IsControl(val[i]) }

  method EscapeStringVal(val: string) returns (out: string)
    ensures out == Escape(val)
  {
    if !HasControl(val) {
      NothingToEscape(val);
      return val;
    }
    out := "";
    hide Escape, EscapeRune;
    assert val[0..] == val;
    for i := 0 to |val|
      invariant out + Escape(val[i..]) == Escape(val)
    {
      EscapeStep(val, i);
      Reassociate(out, EscapeRune(val[i]), Escape(val[i + 1..]));
      out := out + EscapeRune(val[i]);
    }
    assert val[|val|..] == "";
    EscapeNothing(out);
  }

  lemma {:induction false} EscapeStep(val: string, i: nat)
    requires i < |val|
    ensures Escape(val[i..]) == EscapeRune(val[i]) + Escape(val[i + 1..])
  {
    assert val[i..][1..] == val[i + 1..];
  }

  lemma {:induction false} Reassociate(a: string, b: string, c: string)
    ensures a + (b + c) == (a + b) + c
  {
  }

  lemma {:induction false} EscapeNothing(out: string)
    ensures out + Escape("") == out
  {
  }

  lemma {:induction false} NothingToEscape(val: string)
    requires !HasControl(val)
    ensures Escape(val) == val
  {
    if val != "" {
      forall i | 0 <= i < |val[1..]| ensures !IsControl(val[1..][i]) {
        assert val[1..][i] == val[i + 1];
      }
      NothingToEscape(val[1..]);
      assert !IsControl(val[0]);
      assert val == [val[0]] + val[1..];
    }
  }

  lemma {:induction false} NoControlLeft(val: string)
    ensures !HasControl(Escape(val))
  {
    if val != "" {
      NoControlLeft(val[1..]);
      var e, rest := EscapeRune(val[0]), Escape(val[1..]);
      forall i | 0 <= i < |e + rest| ensures !IsControl((e + rest)[i]) {
        if i >= |e| {
          assert (e + rest)[i] == rest[i - |e|];
        }
      }
    }
  }

  lemma {:induction false} EscapeIdempotent(val: string)
    ensures Escape(Escape(val)) == Escape(val)
  {
    NoControlLeft(val);
    NothingToEscape(Escape(val));
  }

  // ---------------------------------------------------------------- what an escape stands for

  /** The text that a backslash and a rune stand for; an unknown pair stands for itself. */
  function Pair(c: char): string {
    match c
    case 'n' => "\n"
    case 'r' => "\r"
    case 't' => "\t"
    case '\\' => "\\"
    case '"' => "\""
    case _ => ['\\', c]
  }

  /** The text that a string in a source stands for. */
  function Meaning(val: string): string {
    if val == "" then ""
    else if val[0] == '\\' && |val| >= 2 then Pair(val[1]) + Meaning(val[2..])
    else [val[0]] + Meaning(val[1..])
  }

  /** A backslash is directly followed by a raw control character, which it takes with it. */
  predicate TakesControl(val: string) {
    if val == "" then false
    else if val[0] == '\\' && |val| >= 2 then IsControl(val[1]) || TakesControl(val[2..])
    else TakesControl(val[1..])
  }

  lemma {:induction false} MeaningSteps(c: char, rest: string)
    ensures c != '\\' ==> Meaning([c] + rest) == [c] + Meaning(rest)
    ensures Meaning(['\\', c] + rest) == Pair(c) + Meaning(rest)
    ensures TakesControl(['\\', c] + rest) <==> IsControl(c) || TakesControl(rest)
    ensures c != '\\' ==> (TakesControl([c] + rest) <==> TakesControl(rest))
  {
    assert ([c] + rest)[1..] == rest;
    assert (['\\', c] + rest)[2..] == rest && (['\\', c] + rest)[1] == c;
  }

  lemma {:induction false} EscapeSteps(c: char, rest: string)
    ensures Escape([c] + rest) == EscapeRune(c) + Escape(rest)
    ensures Escape(['\\', c] + rest) == ['\\'] + (EscapeRune(c) + Escape(rest))
  {
    hide EscapeRune;
    assert ([c] + rest)[1..] == rest;
    assert (['\\', c] + rest)[1..] == [c] + rest;
    assert EscapeRune('\\') == "\\" by { PlainRune('\\'); }
  }

  lemma {:induction false} PlainRune(c: char)
    ensures !IsControl(c) ==> EscapeRune(c) == [c]
    ensures IsControl(c) ==> |EscapeRune(c)| == 2 && EscapeRune(c)[0] == '\\' && Pair(EscapeRune(c)[1]) == [c] && EscapeRune(c)[1] != c && EscapeRune(c)[1] != '\\'
  {
  }

  /** What an escaped rune stands for, in front of a text: itself. */
  lemma {:induction false} MeaningOfRune(c: char, tail: string)
    requires c != '\\'
    ensures Meaning(EscapeRune(c) + tail) == [c] + Meaning(tail)
  {
    PlainRune(c);
    hide Meaning, EscapeRune;
    var e := EscapeRune(c);
    MeaningSteps(c, tail);
    if IsControl(c) {
      assert e == ['\\', e[1]];
      MeaningSteps(e[1], tail);
    }
  }

  lemma {:induction false} FourPieces(a: char, b: char, c: char, s: string, t: string)
    ensures [a, b, c] + s == [a, b] + ([c] + s) && [a] + ([c] + t) == [a, c] + t
  {
  }

  lemma {:induction false} TwoBackslashes(c: char, tail: string)
    requires c != '\\'
    ensures Meaning(['\\', '\\', c] + tail) == ['\\', c] + Meaning(tail)
  {
    assert Pair('\\') == ['\\'];
    hide Meaning, Pair, TakesControl;
    FourPieces('\\', '\\', c, tail, Meaning(tail));
    MeaningSteps('\\', [c] + tail);
    MeaningSteps(c, tail);
  }

  /** And behind a backslash: a control character is not itself any more, other runes form their pair. */
  lemma {:induction false} MeaningBehindBackslash(c: char, tail: string)
    ensures IsControl(c) ==> |EscapeRune(c)| == 2
    ensures Meaning(['\\'] + (EscapeRune(c) + tail)) == (if IsControl(c) then ['\\', EscapeRune(c)[1]] else Pair(c)) + Meaning(tail)
  {
    PlainRune(c);
    hide Meaning, EscapeRune, Pair, IsControl;
    var e := EscapeRune(c);
    if IsControl(c) {
      TwoBackslashes(e[1], tail);
      assert e == ['\\', e[1]];
      assert ['\\'] + (e + tail) == ['\\', '\\', e[1]] + tail;
    } else {
      MeaningSteps(c, tail);
      assert ['\\'] + (e + tail) == ['\\', c] + tail;
    }
  }

  lemma {:induction false} ControlNotPair(c: char)
    ensures IsControl(c) ==> Pair(c) == ['\\', c]
  {
  }

  /** Escaping keeps what the string stands for, if and only if no backslash takes a raw control character. */
  lemma {:induction false} EscapeKeepsMeaningIff(val: string)
    ensures Meaning(Escape(val)) == Meaning(val) <==> !TakesControl(val)
    decreases |val|
  {
    if |val| >= 2 && val[0] == '\\' {
      var c, rest := val[1], val[2..];
      EscapeKeepsMeaningIff(rest);
      hide Meaning, Escape, EscapeRune, TakesControl, Pair;
      assert val == ['\\', c] + rest;
      MeaningSteps(c, rest);
      EscapeSteps(c, rest);
      MeaningBehindBackslash(c, Escape(rest));
      ControlNotPair(c);
      PlainRune(c);
      SameFront(if IsControl(c) then ['\\', EscapeRune(c)[1]] else Pair(c), Pair(c), Meaning(Escape(rest)), Meaning(rest));
    } else if val != "" && val[0] != '\\' {
      var c, rest := val[0], val[1..];
      EscapeKeepsMeaningIff(rest);
      hide Meaning, Escape, EscapeRune, TakesControl, Pair;
      assert val == [c] + rest;
      MeaningSteps(c, rest);
      EscapeSteps(c, rest);
      MeaningOfRune(c, Escape(rest));
      SameFront([c], [c], Meaning(Escape(rest)), Meaning(rest));
    } else {
      NoPair(val);
    }
  }

  lemma {:induction false} NoPair(val: string)
    requires val == "" || val == "\\"
    ensures Escape(val) == val && !TakesControl(val)
  {
    if val != "" {
      assert val[1..] == "";
    }
  }

  lemma {:induction false} SameFront(a: string, b: string, s: string, t: string)
    requires |a| == |b|
    ensures a + s == b + t <==> a == b && s == t
  {
    assert a == (a + s)[..|a|] && b == (b + t)[..|b|];
    assert s == (a + s)[|a|..] && t == (b + t)[|b|..];
  }

  // ---------------------------------------------------------------- printed tokens

  predicate IsString(k: Kind) { k.StringToken? || k.StringStart? || k.StringMid? || k.StringEnd? }

  /** What the kind of a piece of a string puts before and after its text. */
  function Opening(k: Kind): string { if k.StringMid? || k.StringEnd? then "}" else "\"" }

  function Closing(k: Kind): string { if k.StringStart? || k.StringMid? then "${" else "\"" }

  function TokenText(k: Kind, val: string): string
    requires IsString(k)
  {
    Opening(k) + (Escape(val) + Closing(k))
  }

  // ---------------------------------------------------------------- reading it back

  function Shifted(e: BodyEnd, n: nat): BodyEnd {
    match e
    case Closed(at) => Closed(at + n)
    case Opened(at) => Opened(at + n)
    case Unterminated(at) => Unterminated(at + n)
  }

  /** Where a string ends does not depend on what is before its text. */
  lemma {:induction false} BodyShift(a: string, b: string, p: nat)
    requires p <= |b|
    ensures Body(a + b, |a| + p) == Shifted(Body(b, p), |a|)
    decreases |b| - p
  {
    var c := a + b;
    assert forall k :: 0 <= k < |b| ==> c[|a| + k] == b[k];
    assert Peek(c, |a| + p) == Peek(b, p) && Peek(c, |a| + p + 1) == Peek(b, p + 1);
    if Peek(b, p) == '\0' {
    } else if b[p] == '\\' {
      BodyShift(a, b, if p + 2 <= |b| then p + 2 else p + 1);
    } else if !(b[p] == '$' && Peek(b, p + 1) == '{') && b[p] != '"' {
      BodyShift(a, b, p + 1);
    }
  }

  /** The text of a string as the lexer can produce it, ended by a quote or by "${". */
  predicate EndsWith(e: BodyEnd, at: nat, closing: string) {
    (closing == "\"" && e == Closed(at)) || (closing == "${" && e == Opened(at))
  }

  lemma {:induction false} ShiftedEnds(e: BodyEnd, at: nat, n: nat, closing: string)
    requires EndsWith(e, at, closing)
    ensures EndsWith(Shifted(e, n), at + n, closing)
  {
  }

  /** Rewriting control characters keeps every escape with its rune, so the text still ends where its
      terminator is: also behind a backslash, where the pair becomes an escaped backslash and a letter. */
  lemma {:induction false} EscapedBody(src: string, p: nat, e: nat, closing: string)
    requires p <= e <= |src| && EndsWith(Body(src, p), e, closing)
    ensures EndsWith(Body(Escape(src[p..e]) + closing, 0), |Escape(src[p..e])|, closing)
    decreases e - p
  {
    var val := src[p..e];
    if p == e {
      assert val == "" && Escape(val) + closing == closing;
    } else if src[p] == '\\' {
      EscapedPair(src, p, e, closing);
    } else {
      EscapedPlain(src, p, e, closing);
    }
  }

  lemma {:induction false} EscapedPair(src: string, p: nat, e: nat, closing: string)
    requires p < e <= |src| && src[p] == '\\' && EndsWith(Body(src, p), e, closing)
    ensures EndsWith(Body(Escape(src[p..e]) + closing, 0), |Escape(src[p..e])|, closing)
    decreases e - p, 0
  {
    hide Escape, EscapeRune, Body, Shifted, EndsWith;
    PairInside(src, p, e, closing);
    EscapedBody(src, p + 2, e, closing);
    EscapeTwo(src[p..e]);
    assert src[p..e][2..] == src[p + 2..e] && src[p..e][1] == src[p + 1];
    var second := EscapeRune(src[p + 1]);
    var front, rest := "\\" + second, Escape(src[p + 2..e]) + closing;
    assert Escape(src[p..e]) + closing == front + rest;
    BodyShift(front, rest, 0);
    ShiftedEnds(Body(rest, 0), |Escape(src[p + 2..e])|, |front|, closing);
    EscapedLetters(src[p + 1]);
    FrontPassed(front, rest, second);
  }

  lemma {:induction false} PairInside(src: string, p: nat, e: nat, closing: string)
    requires p < e <= |src| && src[p] == '\\' && EndsWith(Body(src, p), e, closing)
    ensures p + 2 <= e && EndsWith(Body(src, p + 2), e, closing)
  {
  }

  lemma {:induction false} EscapeTwo(val: string)
    requires |val| >= 2 && val[0] == '\\'
    ensures Escape(val) == ("\\" + EscapeRune(val[1])) + Escape(val[2..])
  {
    assert val[1..][1..] == val[2..];
    assert Escape(val[1..]) == EscapeRune(val[1]) + Escape(val[2..]);
  }

  lemma {:induction false} EscapedLetters(c: char)
    ensures 1 <= |EscapeRune(c)| <= 2 && (|EscapeRune(c)| == 2 ==> EscapeRune(c)[1] in "nrt")
  {
  }

  /** A backslash with a rune, or with the two runes a control character became, is passed over. */
  lemma {:induction false} FrontPassed(front: string, rest: string, second: string)
    requires front == "\\" + second && 1 <= |second| <= 2
    requires |second| == 2 ==> second[1] in "nrt"
    ensures Body(front + rest, 0) == Body(front + rest, |front|)
  {
    var s := front + rest;
    assert s[0] == '\\' && |s| >= 2;
    assert Body(s, 0) == Body(s, 2);
    if |second| == 2 {
      assert s[2] == second[1];
      assert Body(s, 2) == Body(s, 3);
    }
  }

  lemma {:induction false} EscapedPlain(src: string, p: nat, e: nat, closing: string)
    requires p < e <= |src| && src[p] != '\\' && EndsWith(Body(src, p), e, closing)
    ensures EndsWith(Body(Escape(src[p..e]) + closing, 0), |Escape(src[p..e])|, closing)
    decreases e - p, 0
  {
    hide Escape, EscapeRune, Body, Shifted, EndsWith, IsControl;
    var c := src[p];
    PlainInside(src, p, e, closing);
    EscapedBody(src, p + 1, e, closing);
    NotOpening(src, p + 1, e, closing);
    EscapeStep(src[..e], p);
    assert src[..e][p..] == src[p..e] && src[..e][p + 1..] == src[p + 1..e];
    var front, rest := EscapeRune(c), Escape(src[p + 1..e]) + closing;
    assert Escape(src[p..e]) + closing == front + rest;
    BodyShift(front, rest, 0);
    ShiftedEnds(Body(rest, 0), |Escape(src[p + 1..e])|, |front|, closing);
    PlainPassed(c, rest);
  }

  lemma {:induction false} PlainInside(src: string, p: nat, e: nat, closing: string)
    requires p < e <= |src| && src[p] != '\\' && EndsWith(Body(src, p), e, closing)
    ensures src[p] != '\0' && src[p] != '"' && !(src[p] == '$' && Peek(src, p + 1) == '{')
    ensures EndsWith(Body(src, p + 1), e, closing)
  {
  }

  lemma {:induction false} PlainPassed(c: char, rest: string)
    requires c != '\\' && c != '\0' && c != '"' && rest != "" && (c == '$' ==> rest[0] != '{')
    ensures Body(EscapeRune(c) + rest, 0) == Body(EscapeRune(c) + rest, |EscapeRune(c)|)
  {
    var s := EscapeRune(c) + rest;
    if IsControl(c) {
      assert s[0] == '\\' && |s| >= 2;
    } else {
      assert s[0] == c && s[1] == rest[0];
    }
  }

  /** After a dollar sign that opens nothing there is still no brace. */
  lemma {:induction false} NotOpening(src: string, p: nat, e: nat, closing: string)
    requires p <= e <= |src| && (closing == "\"" || closing == "${")
    ensures var rest := Escape(src[p..e]) + closing; rest != "" && (Peek(src, p) != '{' ==> rest[0] != '{')
  {
    if p < e {
      assert src[p..e][0] == src[p];
    }
  }

  /** The state in which a piece of a string can be read: one that resumes a string needs its depth. */
  predicate CanStart(k: Kind, depth: int, stack: seq<int>) {
    (k.StringMid? || k.StringEnd?) ==> stack != [] && depth == Top(stack)
  }

  /** Whatever piece of a string the lexer read, from any source and state: its printed form is read
      back, in any state it fits, as one token of the same kind with the escaped value. */
  lemma {:induction false} PrintedReadsBack(src: string, letter: char -> bool, p: nat, depth: int, stack: seq<int>, depth': int, stack': seq<int>)
    requires p <= |src|
    requires var x := Next(src, letter, p, depth, stack);
      x.kind in {StringToken, StringStart, StringMid, StringEnd} && (x.kind in {StringMid, StringEnd} ==> stack' != [] && depth' == Top(stack'))
    ensures var x := Next(src, letter, p, depth, stack);
      var text := TokenText(x.kind, x.val);
      var y := Next(text, letter, 0, depth', stack');
      y.kind == x.kind && y.val == Escape(x.val) && y.end == |text| && y.error == ""
  {
    hide Next, Escape, Body;
    var x := Next(src, letter, p, depth, stack);
    var at := StringText(src, letter, p, depth, stack);
    EscapedBody(src, p + 1, at, Closing(x.kind));
    ReadsText(x.kind, Escape(x.val), letter, depth', stack');
  }

  /** A piece of a string is the text after its opening rune, up to its terminator. */
  lemma {:induction false} StringText(src: string, letter: char -> bool, p: nat, depth: int, stack: seq<int>) returns (at: nat)
    requires p <= |src| && IsString(Next(src, letter, p, depth, stack).kind)
    ensures p + 1 <= at <= |src|
    ensures var x := Next(src, letter, p, depth, stack);
      x.val == src[p + 1..at] && EndsWith(Body(src, p + 1), at, Closing(x.kind))
  {
    hide PlainLexeme;
    PlainKinds(src, letter, p, depth, stack);
    at := Body(src, p + 1).at;
  }

  /** Reading an opening rune, a text and its terminator. */
  lemma {:induction false} ReadsText(k: Kind, val: string, letter: char -> bool, depth: int, stack: seq<int>)
    requires IsString(k) && CanStart(k, depth, stack) && EndsWith(Body(val + Closing(k), 0), |val|, Closing(k))
    ensures var text := Opening(k) + (val + Closing(k));
      var y := Next(text, letter, 0, depth, stack);
      y.kind == k && y.val == val && y.end == |text| && y.error == ""
  {
    hide PlainLexeme, Body;
    var inner := val + Closing(k);
    var text := Opening(k) + inner;
    BodyShift(Opening(k), inner, 0);
    assert text[0] == Opening(k)[0];
    assert text[1..1 + |val|] == val;
  }

  lemma {:induction false} PlainKinds(src: string, letter: char -> bool, p: nat, depth: int, stack: seq<int>)
    requires p <= |src|
    ensures p < |src| ==> !IsString(PlainLexeme(src, letter, p, depth, stack).kind)
  {
    hide Operator, Block, DigitsEnd, WordEnd, LineEnd, SkipSpace;
  }

  /** Printing once more changes nothing. */
  lemma {:induction false} PrintingStable(src: string, letter: char -> bool, p: nat, depth: int, stack: seq<int>, depth': int, stack': seq<int>)
    requires p <= |src|
    requires var x := Next(src, letter, p, depth, stack);
      x.kind in {StringToken, StringStart, StringMid, StringEnd} && (x.kind in {StringMid, StringEnd} ==> stack' != [] && depth' == Top(stack'))
    ensures var x := Next(src, letter, p, depth, stack);
      var text := TokenText(x.kind, x.val);
      var y := Next(text, letter, 0, depth', stack');
      IsString(y.kind) && TokenText(y.kind, y.val) == text
  {
    hide Next, Escape;
    PrintedReadsBack(src, letter, p, depth, stack, depth', stack');
    EscapeIdempotent(Next(src, letter, p, depth, stack).val);
  }
}
