/**
 The Luxo lexer as a function of the source: what the next token is, where it ends, and how it
 changes the brace depth and the stack of string interpolations. Sources are sequences of runes.
 */
module LexerModel {

  /** Keywords and identifiers are words, operators and punctuation symbols named by their text. */
  datatype Kind =
    | Eof | Illegal | Comment | DocComment
    | StringToken | StringStart | StringMid | StringEnd
    | IntToken | FloatToken | DurationToken | WordToken
    | LBrace | RBrace | Symbol(text: string)

  /** A token, the offset after it, the state after it, and its error message ("" if none). */
  datatype Lexeme = Lexeme(kind: Kind, val: string, end: nat, depth: int, stack: seq<int>, error: string)

  /** A token and the part of the source it was read from. */
  datatype Span = Span(kind: Kind, val: string, start: nat, end: nat, error: string)

  // ---------------------------------------------------------------- characters

  /** The rune at an offset; 0 at the end of the source. */
  function Peek(src: string, p: nat): char {
    if p < |src| then src[p] else '\0'
  }

  predicate IsSpace(c: char) { c == ' ' || c == '\t' || c == '\r' || c == '\n' }

  predicate IsDigit(c: char) { '0' <= c <= '9' }

  /** Unicode letters; the only thing known of them is that the rune 0 is none. */
  predicate LettersOnly(letter: char -> bool) { !letter('\0') }

  function SkipSpace(src: string, p: nat): (q: nat)
    requires p <= |src|
    ensures p <= q <= |src|
    decreases |src| - p
  {
    if p < |src| && IsSpace(src[p]) then SkipSpace(src, p + 1) else p
  }

  function DigitsEnd(src: string, p: nat): (q: nat)
    requires p <= |src|
    ensures p <= q <= |src|
    decreases |src| - p
  {
    if p < |src| && IsDigit(src[p]) then DigitsEnd(src, p + 1) else p
  }

  predicate IsWordRune(letter: char -> bool, c: char) { letter(c) || IsDigit(c) || c == '_' }

  function WordEnd(src: string, letter: char -> bool, p: nat): (q: nat)
    requires p <= |src|
    ensures p <= q <= |src|
    decreases |src| - p
  {
    if p < |src| && IsWordRune(letter, src[p]) then WordEnd(src, letter, p + 1) else p
  }

  /** The end of the line, of the source, or the first rune 0. */
  function LineEnd(src: string, p: nat): (q: nat)
    requires p <= |src|
    ensures p <= q <= |src|
    decreases |src| - p
  {
    if p < |src| && src[p] != '\n' && src[p] != '\0' then LineEnd(src, p + 1) else p
  }

  // ---------------------------------------------------------------- strings

  /** Where the text of a string stops: before a quote, before "${", or without either. */
  datatype BodyEnd = Closed(at: nat) | Opened(at: nat) | Unterminated(at: nat)

  /** A backslash takes the next rune with it, whatever that is. */
  function Body(src: string, p: nat): (e: BodyEnd)
    requires p <= |src|
    ensures p <= e.at <= |src|
    ensures e.Closed? ==> e.at < |src| && src[e.at] == '"'
    ensures e.Opened? ==> e.at + 1 < |src| && src[e.at] == '$' && src[e.at + 1] == '{'
    decreases |src| - p
  {
    if Peek(src, p) == '\0' then Unterminated(p)
    else if src[p] == '\\' then Body(src, if p + 2 <= |src| then p + 2 else p + 1)
    else if src[p] == '$' && Peek(src, p + 1) == '{' then Opened(p)
    else if src[p] == '"' then Closed(p)
    else Body(src, p + 1)
  }

  /** One rune, or one escaped pair, of a string's text. */
  lemma {:induction false} BodyStep(src: string, p: nat)
    requires p <= |src|
    ensures Body(src, p) ==
      if Peek(src, p) == '\0' then Unterminated(p)
      else if src[p] == '\\' then Body(src, if p + 2 <= |src| then p + 2 else p + 1)
      else if src[p] == '$' && Peek(src, p + 1) == '{' then Opened(p)
      else if src[p] == '"' then Closed(p)
      else Body(src, p + 1)
  {
  }

  /** A string or the rest of one, whose text starts at `p`. */
  function StringLexeme(src: string, p: nat, plain: Kind, interp: Kind, depth: int, stack: seq<int>): (x: Lexeme)
    requires p <= |src|
    ensures p <= x.end <= |src|
  {
    match Body(src, p)
    case Unterminated(e) => Lexeme(Illegal, src[p..e], e, depth, stack, "unterminated string")
    case Opened(e) => Lexeme(interp, src[p..e], e + 2, depth + 1, stack + [depth + 1], "")
    case Closed(e) => Lexeme(plain, src[p..e], e + 1, depth, stack, "")
  }

  /** The lexeme of a text from `p`, told at the rune `q` where the text ends. */
  lemma {:induction false} StringEndsAt(src: string, p: nat, q: nat, plain: Kind, interp: Kind, depth: int, stack: seq<int>)
    requires p <= q <= |src| && Body(src, q) == Body(src, p)
    ensures var x := StringLexeme(src, p, plain, interp, depth, stack);
      && (Peek(src, q) == '\0' ==> x == Lexeme(Illegal, src[p..q], q, depth, stack, "unterminated string"))
      && (Peek(src, q) == '$' && Peek(src, q + 1) == '{' ==> x == Lexeme(interp, src[p..q], q + 2, depth + 1, stack + [depth + 1], ""))
      && (Peek(src, q) == '"' ==> x == Lexeme(plain, src[p..q], q + 1, depth, stack, ""))
  {
    hide Body;
    BodyStep(src, q);
  }

  // ---------------------------------------------------------------- comments, numbers, symbols

  datatype BlockEnd = Ended(after: nat) | Open(at: nat)

  function Block(src: string, p: nat, depth: nat): (e: BlockEnd)
    requires p <= |src| && depth > 0
    ensures e.Ended? ==> p + 2 <= e.after <= |src|
    ensures e.Open? ==> p <= e.at <= |src|
    decreases |src| - p
  {
    if Peek(src, p) == '\0' then Open(p)
    else if src[p] == '/' && Peek(src, p + 1) == '*' then Block(src, p + 2, depth + 1)
    else if src[p] == '*' && Peek(src, p + 1) == '/' then (if depth == 1 then Ended(p + 2) else Block(src, p + 2, depth - 1))
    else Block(src, p + 1, depth)
  }

  function CommentLexeme(src: string, p: nat, kind: Kind, depth: int, stack: seq<int>): (x: Lexeme)
    requires p <= |src|
    ensures p <= x.end <= |src|
  {
    var start := SkipSpace(src, p);
    var end := LineEnd(src, start);
    Lexeme(kind, src[start..end], end, depth, stack, "")
  }

  function BlockLexeme(src: string, p: nat, depth: int, stack: seq<int>): (x: Lexeme)
    requires p <= |src|
    ensures p <= x.end <= |src|
  {
    match Block(src, p, 1)
    case Open(e) => Lexeme(Illegal, src[p..e], e, depth, stack, "unterminated block comment")
    case Ended(e) => Lexeme(Comment, src[p..e - 2], e, depth, stack, "")
  }

  function NumberLexeme(src: string, p: nat, depth: int, stack: seq<int>): (x: Lexeme)
    requires p < |src| && IsDigit(src[p])
    ensures p < x.end <= |src|
  {
    var q := DigitsEnd(src, p + 1);
    var next := Peek(src, q);
    if next == '.' && Peek(src, q + 1) != '.' then
      var e := DigitsEnd(src, q + 1);
      Lexeme(FloatToken, src[p..e], e, depth, stack, "")
    else if next == 'd' || next == 'h' || next == 's' then Lexeme(DurationToken, src[p..q + 1], q + 1, depth, stack, "")
    else if next == 'm' then
      var e := if Peek(src, q + 1) == 's' then q + 2 else q + 1;
      Lexeme(DurationToken, src[p..e], e, depth, stack, "")
    else Lexeme(IntToken, src[p..q], q, depth, stack, "")
  }

  /** The operator at an offset, comments and the lone '&' and '|' aside; "" if there is none. */
  function Operator(src: string, p: nat): string {
    var (c, d, e) := (Peek(src, p), Peek(src, p + 1), Peek(src, p + 2));
    match c
    case '+' => if d == '=' then "+=" else "+"
    case '*' => if d == '=' then "*=" else "*"
    case '%' => if d == '=' then "%=" else "%"
    case '.' => if d == '.' then (if e == '.' then "..." else "..") else "."
    case '?' => if d == ':' then "?:" else if d == '.' then "?." else "?"
    case '=' => if d == '=' then "==" else "="
    case '!' => if d == '=' then "!=" else if d == ':' then "!:" else "!"
    case '>' => if d == '=' then ">=" else ">"
    case '<' => if d == '=' then "<=" else if d == '-' then "<-" else "<"
    case '&' => if d == '&' then "&&" else ""
    case '|' => if d == '|' then "||" else ""
    case '-' => if d == '>' then "->" else if d == '=' then "-=" else "-"
    case '/' => if d == '/' || d == '*' then "" else if d == '=' then "/=" else "/"
    case _ => ""
  }

  predicate IsPunctuation(c: char) { c in ":()[],@" }

  /** The tokens that are neither braces, strings nor the end. */
  function PlainLexeme(src: string, letter: char -> bool, p: nat, depth: int, stack: seq<int>): (x: Lexeme)
    requires p < |src|
    ensures p < x.end <= |src|
  {
    var c := src[p];
    var operator := Operator(src, p);
    if IsPunctuation(c) then Lexeme(Symbol([c]), [c], p + 1, depth, stack, "")
    else if operator != "" then
      OperatorInSource(src, p);
      Lexeme(Symbol(operator), operator, p + |operator|, depth, stack, "")
    else if c == '&' then Lexeme(Illegal, "&", p + 1, depth, stack, "unexpected '&', did you mean '&&'?")
    else if c == '|' then Lexeme(Illegal, "|", p + 1, depth, stack, "unexpected '|', did you mean '||'?")
    else if c == '/' then
      (if src[p + 1] == '*' then BlockLexeme(src, p + 2, depth, stack)
       else if Peek(src, p + 2) == '/' then CommentLexeme(src, p + 3, DocComment, depth, stack)
       else CommentLexeme(src, p + 2, Comment, depth, stack))
    else if IsDigit(c) then NumberLexeme(src, p, depth, stack)
    else if letter(c) || c == '_' then
      var e := WordEnd(src, letter, p + 1);
      Lexeme(WordToken, src[p..e], e, depth, stack, "")
    else Lexeme(Illegal, [c], p + 1, depth, stack, "unexpected character: " + [c])
  }

  lemma {:induction false} OperatorInSource(src: string, p: nat)
    ensures p + |Operator(src, p)| <= |src| || Operator(src, p) == ""
    ensures Operator(src, p) != "" ==> src[p..p + |Operator(src, p)|] == Operator(src, p)
  {
    var op := Operator(src, p);
    assert |op| <= 3;
    assert |op| >= 1 ==> Peek(src, p) == op[0];
    assert |op| >= 2 ==> Peek(src, p + 1) == op[1];
    assert |op| >= 3 ==> Peek(src, p + 2) == op[2];
    hide Operator;
    if |op| == 1 {
      assert src[p..p + 1] == [src[p]] == op;
    } else if |op| == 2 {
      assert src[p..p + 2] == [src[p], src[p + 1]] == op;
    } else if |op| == 3 {
      assert src[p..p + 3] == [src[p], src[p + 1], src[p + 2]] == op;
    }
  }

  lemma {:induction false} SlashStartsComment(src: string, p: nat)
    requires p < |src| && src[p] == '/' && Operator(src, p) == ""
    ensures Peek(src, p + 1) == '*' || Peek(src, p + 1) == '/'
  {
  }

  // ---------------------------------------------------------------- the next token

  function Top(stack: seq<int>): int
    requires stack != []
  {
    stack[|stack| - 1]
  }

  function Pop(stack: seq<int>): seq<int>
    requires stack != []
  {
    stack[..|stack| - 1]
  }

  /** Interpolations start at increasing depths, none deeper than the current one. */
  ghost predicate Nested(stack: seq<int>, depth: int) {
    && (forall i, j :: 0 <= i < j < |stack| ==> stack[i] < stack[j])
    && (stack != [] ==> Top(stack) <= depth)
  }

  /** The token at an offset that is no white space. */
  function Next(src: string, letter: char -> bool, p: nat, depth: int, stack: seq<int>): (x: Lexeme)
    requires p <= |src|
    ensures p <= x.end <= |src|
    ensures x.kind.Eof? || p < x.end
  {
    var c := Peek(src, p);
    if c == '\0' then Lexeme(Eof, "", p, depth, stack, "")
    else if c == '}' && stack != [] && depth == Top(stack) then
      StringLexeme(src, p + 1, StringEnd, StringMid, depth - 1, Pop(stack))
    else if c == '{' then Lexeme(LBrace, "{", p + 1, depth + 1, stack, "")
    else if c == '}' then Lexeme(RBrace, "}", p + 1, depth - 1, stack, "")
    else if c == '"' then StringLexeme(src, p + 1, StringToken, StringStart, depth, stack)
    else PlainLexeme(src, letter, p, depth, stack)
  }

  /** All tokens from an offset on, up to the first end-of-file token. */
  function Lex(src: string, letter: char -> bool, p: nat, depth: int, stack: seq<int>): (spans: seq<Span>)
    requires p <= |src|
    decreases |src| - p
  {
    var q := SkipSpace(src, p);
    var x := Next(src, letter, q, depth, stack);
    var span := Span(x.kind, x.val, q, x.end, x.error);
    if x.kind.Eof? then [span] else [span] + Lex(src, letter, x.end, x.depth, x.stack)
  }

  // ---------------------------------------------------------------- positions

  /** Line and column after a prefix of the source, by scanning it. */
  function LineAt(src: string, p: nat): nat
    requires p <= |src|
  {
    if p == 0 then 1 else LineAt(src, p - 1) + (if src[p - 1] == '\n' then 1 else 0)
  }

  function ColAt(src: string, p: nat): nat
    requires p <= |src|
  {
    if p == 0 || src[p - 1] == '\n' then 1 else ColAt(src, p - 1) + 1
  }
}
