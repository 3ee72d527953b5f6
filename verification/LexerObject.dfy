/**
 The lexer as the object it is: a cursor with line and column, the brace depth, the interpolation
 stack, and the tokens and errors so far.
 */
module LexerObject {
  import opened LexerModel

  datatype Position = Position(line: nat, col: nat, offset: nat)

  datatype Token = Token(kind: Kind, val: string, at: Position)

  datatype Error = Error(at: Position, message: string)

  class Lexer {
    const source: string
    const letter: char -> bool
    var pos: nat
    var line: nat
    var col: nat
    var tokens: seq<Token>
    var errors: seq<Error>
    var braceDepth: int
    var interpStack: seq<int>

    ghost predicate Valid()
      reads this
    {
      && LettersOnly(letter) && pos <= |source|
      && line == LineAt(source, pos) && col == ColAt(source, pos)
      && Nested(interpStack, braceDepth)
    }

    constructor (source: string, letter: char -> bool)
      requires LettersOnly(letter)
      ensures Valid() && this.source == source && this.letter == letter
      ensures pos == 0 && tokens == [] && errors == [] && braceDepth == 0 && interpStack == []
    {
      this.source, this.letter := source, letter;
      pos, line, col := 0, 1, 1;
      tokens, errors, braceDepth, interpStack := [], [], 0, [];
    }

    function At(p: nat): Position
      requires p <= |source|
    {
      Position(LineAt(source, p), ColAt(source, p), p)
    }

    /** The token of the lexeme has been read and the object is in the state after it. */
    ghost predicate Did(x: Lexeme, tok: Token, at: Position, before: seq<Error>)
      reads this
    {
      && Valid()
      && pos == x.end && braceDepth == x.depth && interpStack == x.stack
      && tok == Token(x.kind, x.val, at)
      && errors == before + (if x.error == "" then [] else [Error(at, x.error)])
    }

    // -------------------------------------------------------------- the cursor

    method Advance()
      requires Valid()
      modifies `pos, `line, `col
      ensures Valid() && pos == if old(pos) < |source| then old(pos) + 1 else old(pos)
    {
      if pos >= |source| {
        return;
      }
      if source[pos] == '\n' {
        line, col := line + 1, 1;
      } else {
        col := col + 1;
      }
      pos := pos + 1;
    }

    /** Advances over runes known not to be the end. */
    method AdvanceBy(n: nat)
      requires Valid() && pos + n <= |source|
      modifies `pos, `line, `col
      ensures Valid() && pos == old(pos) + n
    {
      for i := 0 to n
        invariant Valid() && pos == old(pos) + i
      {
        Advance();
      }
    }

    method SkipWhitespace()
      requires Valid()
      modifies `pos, `line, `col
      ensures Valid() && pos == SkipSpace(source, old(pos))
    {
      while true
        invariant Valid() && SkipSpace(source, pos) == SkipSpace(source, old(pos))
        decreases |source| - pos
      {
        var ch := Peek(source, pos);
        if ch == ' ' || ch == '\t' || ch == '\r' || ch == '\n' {
          Advance();
        } else {
          break;
        }
      }
    }

    method Fail(at: Position, message: string)
      modifies `errors
      ensures errors == old(errors) + [Error(at, message)]
    {
      errors := errors + [Error(at, message)];
    }

    // -------------------------------------------------------------- strings

    /** Enters an interpolation, one brace deeper. */
    method PushInterp()
      requires Valid()
      modifies `braceDepth, `interpStack
      ensures Valid() && braceDepth == old(braceDepth) + 1 && interpStack == old(interpStack) + [braceDepth]
    {
      braceDepth := braceDepth + 1;
      interpStack := interpStack + [braceDepth];
    }

    /** Leaves the innermost interpolation. */
    method PopInterp()
      requires Valid() && interpStack != [] && braceDepth == Top(interpStack)
      modifies `braceDepth, `interpStack
      ensures Valid() && braceDepth == old(braceDepth) - 1 && interpStack == Pop(old(interpStack))
    {
      interpStack := Pop(interpStack);
      braceDepth := braceDepth - 1;
    }

    method ReadStringBody(at: Position, plain: Kind, interp: Kind) returns (tok: Token)
      requires Valid()
      modifies `pos, `line, `col, `braceDepth, `interpStack, `errors
      ensures Did(old(StringLexeme(source, pos, plain, interp, braceDepth, interpStack)), tok, at, old(errors))
    {
      hide LineAt, ColAt, Nested, LettersOnly, Body, StringLexeme;
      var start := pos;
      while true
        invariant Valid() && start <= pos && Body(source, pos) == Body(source, start)
        invariant braceDepth == old(braceDepth) && interpStack == old(interpStack) && errors == old(errors)
        decreases |source| - pos
      {
        BodyStep(source, pos);
        StringEndsAt(source, start, pos, plain, interp, braceDepth, interpStack);
        var ch := Peek(source, pos);
        if ch == '\0' {
          Fail(at, "unterminated string");
          return Token(Illegal, source[start..pos], at);
        }
        if ch == '\\' {
          Advance();
          Advance();
          continue;
        }
        if ch == '$' && Peek(source, pos + 1) == '{' {
          var val := source[start..pos];
          AdvanceBy(2);
          PushInterp();
          return Token(interp, val, at);
        }
        if ch == '"' {
          var val := source[start..pos];
          Advance();
          return Token(plain, val, at);
        }
        Advance();
      }
    }

    // -------------------------------------------------------------- comments

    method ReadLineComment(at: Position, kind: Kind) returns (tok: Token)
      requires Valid()
      modifies `pos, `line, `col
      ensures Did(old(CommentLexeme(source, pos, kind, braceDepth, interpStack)), tok, at, old(errors))
    {
      hide LineAt, ColAt, Nested;
      SkipWhitespace();
      var start := pos;
      while Peek(source, pos) != '\n' && Peek(source, pos) != '\0'
        invariant Valid() && start <= pos && LineEnd(source, pos) == LineEnd(source, start)
        decreases |source| - pos
      {
        Advance();
      }
      return Token(kind, source[start..pos], at);
    }

    method ReadBlockComment(at: Position) returns (tok: Token)
      requires Valid()
      modifies `pos, `line, `col, `errors
      ensures Did(old(BlockLexeme(source, pos, braceDepth, interpStack)), tok, at, old(errors))
    {
      hide LineAt, ColAt, Nested;
      var start, depth := pos, 1;
      while depth > 0
        invariant Valid() && start <= pos && depth >= 0 && errors == old(errors)
        invariant depth > 0 ==> Block(source, pos, depth) == Block(source, start, 1)
        invariant depth == 0 ==> Block(source, start, 1) == Ended(pos)
        decreases |source| - pos, depth
      {
        var ch := Peek(source, pos);
        if ch == '\0' {
          Fail(at, "unterminated block comment");
          return Token(Illegal, source[start..pos], at);
        }
        if ch == '/' && Peek(source, pos + 1) == '*' {
          depth := depth + 1;
          AdvanceBy(2);
          continue;
        }
        if ch == '*' && Peek(source, pos + 1) == '/' {
          depth := depth - 1;
          AdvanceBy(2);
          continue;
        }
        Advance();
      }
      return Token(Comment, source[start..pos - 2], at);
    }

    // -------------------------------------------------------------- words, numbers, operators

    method ReadIdent(at: Position) returns (tok: Token)
      requires Valid() && pos < |source| && (letter(source[pos]) || source[pos] == '_')
      modifies `pos, `line, `col
      ensures var e := WordEnd(source, letter, old(pos) + 1);
        Did(Lexeme(WordToken, source[old(pos)..e], e, old(braceDepth), old(interpStack), ""), tok, at, old(errors))
    {
      hide LineAt, ColAt, Nested;
      var start := pos;
      while letter(Peek(source, pos)) || IsDigit(Peek(source, pos)) || Peek(source, pos) == '_'
        invariant Valid() && start <= pos && WordEnd(source, letter, pos) == WordEnd(source, letter, start)
        decreases |source| - pos
      {
        Advance();
      }
      return Token(WordToken, source[start..pos], at);
    }

    method SkipDigits()
      requires Valid()
      modifies `pos, `line, `col
      ensures Valid() && pos == DigitsEnd(source, old(pos))
    {
      while IsDigit(Peek(source, pos))
        invariant Valid() && DigitsEnd(source, pos) == DigitsEnd(source, old(pos))
        decreases |source| - pos
      {
        Advance();
      }
    }

    method ReadNumber(at: Position) returns (tok: Token)
      requires Valid() && pos < |source| && IsDigit(source[pos])
      modifies `pos, `line, `col
      ensures Did(old(NumberLexeme(source, pos, braceDepth, interpStack)), tok, at, old(errors))
    {
      hide LineAt, ColAt, Nested;
      var start := pos;
      SkipDigits();
      if Peek(source, pos) == '.' && Peek(source, pos + 1) != '.' {
        Advance();
        SkipDigits();
        return Token(FloatToken, source[start..pos], at);
      }
      var ch := Peek(source, pos);
      if ch == 'd' || ch == 'h' || ch == 's' {
        Advance();
        return Token(DurationToken, source[start..pos], at);
      }
      if ch == 'm' {
        Advance();
        if Peek(source, pos) == 's' {
          Advance();
        }
        return Token(DurationToken, source[start..pos], at);
      }
      return Token(IntToken, source[start..pos], at);
    }

    /** Reads an operator whose text the source has at the cursor. */
    method ReadSymbol(at: Position, text: string) returns (tok: Token)
      requires Valid() && pos + |text| <= |source|
      modifies `pos, `line, `col
      ensures Did(Lexeme(Symbol(text), text, old(pos) + |text|, old(braceDepth), old(interpStack), ""), tok, at, old(errors))
    {
      AdvanceBy(|text|);
      return Token(Symbol(text), text, at);
    }

    /** A rune that starts no token. */
    method ReadIllegal(at: Position, message: string) returns (tok: Token)
      requires Valid() && pos < |source| && message != ""
      modifies `pos, `line, `col, `errors
      ensures Did(Lexeme(Illegal, [source[old(pos)]], old(pos) + 1, old(braceDepth), old(interpStack), message), tok, at, old(errors))
    {
      var ch := source[pos];
      Advance();
      Fail(at, message);
      return Token(Illegal, [ch], at);
    }

    method ReadPlain(at: Position) returns (tok: Token)
      requires Valid() && pos < |source|
      modifies `pos, `line, `col, `errors
      ensures Did(old(PlainLexeme(source, letter, pos, braceDepth, interpStack)), tok, at, old(errors))
    {
      hide LineAt, ColAt, Nested, Operator, NumberLexeme, BlockLexeme, CommentLexeme, WordEnd;
      var ch := source[pos];
      OperatorInSource(source, pos);
      var operator := Operator(source, pos);
      if IsPunctuation(ch) {
        tok := ReadSymbol(at, [ch]);
      } else if operator != "" {
        tok := ReadSymbol(at, operator);
      } else if ch == '&' {
        tok := ReadIllegal(at, "unexpected '&', did you mean '&&'?");
      } else if ch == '|' {
        tok := ReadIllegal(at, "unexpected '|', did you mean '||'?");
      } else if ch == '/' {
        SlashStartsComment(source, pos);
        Advance();
        if Peek(source, pos) == '*' {
          Advance();
          tok := ReadBlockComment(at);
        } else {
          Advance();
          if Peek(source, pos) == '/' {
            Advance();
            tok := ReadLineComment(at, DocComment);
          } else {
            tok := ReadLineComment(at, Comment);
          }
        }
      } else if IsDigit(ch) {
        tok := ReadNumber(at);
      } else if letter(ch) || ch == '_' {
        tok := ReadIdent(at);
      } else {
        tok := ReadIllegal(at, "unexpected character: " + [ch]);
      }
    }

    // -------------------------------------------------------------- tokens

    /** The next token; a closing brace at the depth of the innermost interpolation resumes its string. */
    method NextToken() returns (tok: Token)
      requires Valid()
      modifies `pos, `line, `col, `braceDepth, `interpStack, `errors
      ensures var p := old(SkipSpace(source, pos));
        Did(old(Next(source, letter, p, braceDepth, interpStack)), tok, At(p), old(errors))
    {
      hide PlainLexeme, StringLexeme, LineAt, ColAt;
      SkipWhitespace();
      var at := Position(line, col, pos);
      var ch := Peek(source, pos);
      if ch == '\0' {
        return Token(Eof, "", at);
      }
      if ch == '}' && |interpStack| > 0 && braceDepth == Top(interpStack) {
        Advance();
        PopInterp();
        tok := ReadStringBody(at, StringEnd, StringMid);
        return;
      }
      if ch == '{' {
        braceDepth := braceDepth + 1;
        Advance();
        return Token(LBrace, "{", at);
      }
      if ch == '}' {
        braceDepth := braceDepth - 1;
        Advance();
        return Token(RBrace, "}", at);
      }
      if ch == '"' {
        Advance();
        tok := ReadStringBody(at, StringToken, StringStart);
        return;
      }
      tok := ReadPlain(at);
    }

    /** The tokens and the errors of a list of spans, each with the position a scan of the prefix gives. */
    ghost predicate Positioned(spans: seq<Span>, toks: seq<Token>, errs: seq<Error>)
      decreases |spans|
    {
      if spans == [] then toks == [] && errs == []
      else
        var n := |spans| - 1;
        var last := spans[n];
        && toks != [] && last.start <= |source|
        && toks[|toks| - 1] == Token(last.kind, last.val, At(last.start))
        && (last.error == "" ==> Positioned(spans[..n], toks[..|toks| - 1], errs))
        && (last.error != "" ==>
          && errs != [] && errs[|errs| - 1] == Error(At(last.start), last.error)
          && Positioned(spans[..n], toks[..|toks| - 1], errs[..|errs| - 1]))
    }

    lemma {:induction false} PositionedAppend(spans: seq<Span>, toks: seq<Token>, errs: seq<Error>, span: Span)
      requires Positioned(spans, toks, errs) && span.start <= |source|
      ensures Positioned(spans + [span], toks + [Token(span.kind, span.val, At(span.start))],
                errs + (if span.error == "" then [] else [Error(At(span.start), span.error)]))
    {
      assert (spans + [span])[..|spans|] == spans;
      var tok := Token(span.kind, span.val, At(span.start));
      assert (toks + [tok])[..|toks|] == toks;
      if span.error == "" {
        assert errs + [] == errs;
      } else {
        assert (errs + [Error(At(span.start), span.error)])[..|errs|] == errs;
      }
    }

    /** Scans the source to its first end-of-file token: always terminates, with the tokens of the model. */
    method Tokenize() returns (toks: seq<Token>, errs: seq<Error>)
      requires Valid() && pos == 0 && errors == [] && braceDepth == 0 && interpStack == []
      modifies this
      ensures Positioned(Lex(source, letter, 0, 0, []), toks, errs)
      ensures toks == tokens && errs == errors && Valid()
    {
      hide Next, Did, Positioned;
      tokens := [];
      ghost var spans: seq<Span>, all := [], Lex(source, letter, 0, 0, []);
      assert Positioned([], [], []) by { Nothing(); }
      while true
        invariant Valid()
        invariant Positioned(spans, tokens, errors)
        invariant spans + Lex(source, letter, pos, braceDepth, interpStack) == all
        decreases |source| - pos
      {
        ghost var p := SkipSpace(source, pos);
        ghost var x := Next(source, letter, p, braceDepth, interpStack);
        ghost var span, before := Span(x.kind, x.val, p, x.end, x.error), errors;
        LexStep(pos, braceDepth, interpStack, spans);
        PositionedAppend(spans, tokens, errors, span);
        var tok := NextToken();
        Done(x, tok, At(p), before);
        tokens := tokens + [tok];
        spans := spans + [span];
        if tok.kind.Eof? {
          break;
        }
      }
      return tokens, errors;
    }

    lemma {:induction false} Nothing()
      ensures Positioned([], [], [])
    {
    }

    lemma {:induction false} Done(x: Lexeme, tok: Token, at: Position, before: seq<Error>)
      requires Did(x, tok, at, before)
      ensures Valid() && pos == x.end && braceDepth == x.depth && interpStack == x.stack
      ensures tok == Token(x.kind, x.val, at)
      ensures errors == before + (if x.error == "" then [] else [Error(at, x.error)])
    {
    }

    lemma {:induction false} LexStep(p: nat, depth: int, stack: seq<int>, spans: seq<Span>)
      requires p <= |source|
      ensures var q := SkipSpace(source, p);
        var x := Next(source, letter, q, depth, stack);
        spans + Lex(source, letter, p, depth, stack) ==
          spans + [Span(x.kind, x.val, q, x.end, x.error)] + (if x.kind.Eof? then [] else Lex(source, letter, x.end, x.depth, x.stack))
    {
      hide Next, SkipSpace;
    }
  }
}
