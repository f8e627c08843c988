/** The Lexer class, src/frontend/lexer/Lexer.cpp:1-287, against the functions of the lexer model. */
module Lexers {
  import opened Options
  import opened Lexing
  import LexingLaws

  class Lexer {
    const src: string
    var pos: nat
    var line: nat
    var col: nat
    var err: bool

    ghost predicate Valid()
      reads this
    {
      pos <= |src| && line == Line(src, pos) && col == Col(src, pos)
    }

    constructor (s: string)
      ensures Valid() && src == s && pos == 0 && !err
    {
      src, pos, line, col, err := s, 0, 1, 1, false;
    }

    method Advance()
      requires Valid() && pos < |src|
      modifies this`pos, this`line, this`col
      ensures Valid() && pos == old(pos) + 1
    {
      if Peek(src, pos) == '\n' {
        line, col := line + 1, 1;
      } else {
        col := col + 1;
      }
      pos := pos + 1;
    }

    method Match(c: char) returns (matched: bool)
      requires Valid() && c != '\0'
      modifies this`pos, this`line, this`col
      ensures Valid() && matched == (Peek(src, old(pos)) == c) && pos == old(pos) + if matched then 1 else 0
    {
      matched := Peek(src, pos) == c;
      if matched { Advance(); }
    }

    method SkipLineComment()
      requires Valid()
      modifies this`pos, this`line, this`col
      ensures Valid() && pos == LineCommentEnd(src, old(pos))
    {
      while Peek(src, pos) != '\n' && Peek(src, pos) != '\0'
        invariant Valid() && LineCommentEnd(src, pos) == LineCommentEnd(src, old(pos))
        decreases |src| - pos
      {
        Advance();
      }
    }

    method SkipBlockComment()
      requires Valid() && pos + 2 <= |src|
      modifies this
      ensures Valid() && pos == BlockCommentEnd(src, old(pos) + 2).0
      ensures err == (old(err) || !BlockCommentEnd(src, old(pos) + 2).1)
    {
      Advance();
      Advance();
      var closed := false;
      while Peek(src, pos) != '\0' && !closed
        invariant Valid() && err == old(err)
        invariant BlockCommentEnd(src, old(pos) + 2) == if closed then (pos, true) else BlockCommentEnd(src, pos)
        decreases |src| - pos, !closed
      {
        if Peek(src, pos) == '*' && Peek(src, pos + 1) == '/' {
          Advance();
          Advance();
          closed := true;
        } else {
          Advance();
        }
      }
      if !closed { err := true; }
    }

    method SkipWhitespaceAndComments()
      requires Valid()
      modifies this
      ensures Valid() && pos == SkipEnd(src, old(pos)).0 && err == (old(err) || !SkipEnd(src, old(pos)).1)
    {
      var skipping := true;
      while skipping
        invariant Valid()
        invariant skipping ==> SkipEnd(src, pos).0 == SkipEnd(src, old(pos)).0
        invariant skipping ==> (err || !SkipEnd(src, pos).1) == (old(err) || !SkipEnd(src, old(pos)).1)
        invariant !skipping ==> pos == SkipEnd(src, old(pos)).0 && err == (old(err) || !SkipEnd(src, old(pos)).1)
        decreases skipping, |src| - pos
      {
        var c := Peek(src, pos);
        if IsSpace(c) {
          Advance();
        } else if c == '/' && Peek(src, pos + 1) == '/' {
          CommentMoves(src, pos);
          SkipLineComment();
        } else if c == '/' && Peek(src, pos + 1) == '*' {
          SkipBlockComment();
        } else {
          skipping := false;
        }
      }
    }

    method ScanWord()
      requires Valid() && pos < |src| && (IsAlpha(src[pos]) || src[pos] == '_')
      modifies this`pos, this`line, this`col
      ensures Valid() && pos == WordEnd(src, old(pos) + 1)
    {
      while IsWordChar(Peek(src, pos))
        invariant Valid() && WordEnd(src, pos) == WordEnd(src, old(pos) + 1)
        decreases |src| - pos
      {
        Advance();
      }
    }

    method ScanHex()
      requires Valid() && pos + 2 <= |src|
      modifies this`pos, this`line, this`col
      ensures Valid() && pos == HexEnd(src, old(pos) + 2)
    {
      Advance();
      Advance();
      while IsHexDigit(Peek(src, pos))
        invariant Valid() && HexEnd(src, pos) == HexEnd(src, old(pos) + 2)
        decreases |src| - pos
      {
        Advance();
      }
    }

    method ScanNumber() returns (hasDot: bool)
      requires Valid()
      modifies this
      ensures Valid()
      ensures
        var n := NumberEnd(src, old(pos), false);
        pos == n.end && hasDot == n.hasDot && err == (old(err) || !n.ok)
    {
      hasDot := false;
      var scanning := true;
      ghost var n := NumberEnd(src, pos, false);
      while scanning && (IsDigit(Peek(src, pos)) || Peek(src, pos) == '.')
        invariant Valid()
        invariant scanning ==> err == old(err) && n == NumberEnd(src, pos, hasDot)
        invariant !scanning ==> pos == n.end && hasDot == n.hasDot && err == (old(err) || !n.ok)
        decreases scanning, |src| - pos
      {
        if Peek(src, pos) == '.' {
          if Peek(src, pos + 1) == '.' {
            scanning := false;
          } else if hasDot {
            err := true;
            scanning := false;
          } else {
            hasDot := true;
          }
        }
        if scanning { Advance(); }
      }
    }

    method ScanString() returns (textEnd: nat)
      requires Valid() && pos < |src|
      modifies this
      ensures Valid()
      ensures
        var (q, closed) := StringEnd(src, old(pos) + 1);
        textEnd == q && pos == (if closed then q + 1 else q) && err == (old(err) || !closed)
    {
      Advance();
      var closed := false;
      while !closed && Peek(src, pos) != '\0' && Peek(src, pos) != '\n'
        invariant Valid() && err == old(err)
        invariant StringEnd(src, pos) == StringEnd(src, old(pos) + 1) && (closed ==> Peek(src, pos) == '"')
        decreases !closed, |src| - pos
      {
        if Peek(src, pos) == '\\' {
          Advance();
          if Peek(src, pos) != '\0' { Advance(); }
        } else if Peek(src, pos) == '"' {
          closed := true;
        } else {
          Advance();
        }
      }
      textEnd := pos;
      if closed { Advance(); } else { err := true; }
    }

    method ScanOperator() returns (kind: Option<TokenType>)
      requires Valid() && pos < |src|
      modifies this`pos, this`line, this`col
      ensures Valid()
      ensures kind == (match OperatorAt(src, old(pos)) case Some((t, _)) => Some(t) case None => None)
      ensures pos == old(pos) + (match OperatorAt(src, old(pos)) case Some((_, n)) => n case None => 1)
    {
      var c := Peek(src, pos);
      var matched;
      Advance();
      if c == ';' {
        return Some(Semicolon);
      } else if c == '?' {
        matched := Match('.');
        if matched { return Some(QuestionSafe); }
        return Some(Question);
      } else if c == ':' {
        return Some(Colon);
      } else if c == '=' {
        matched := Match('>');
        if matched { return Some(FatArrow); }
        matched := Match('=');
        if matched { return Some(EqEq); }
        return Some(Eq);
      } else if c == '-' {
        matched := Match('>');
        if matched { return Some(ThinArrow); }
        matched := Match('=');
        if matched { return Some(MinusEq); }
        matched := Match('-');
        if matched { return Some(MinusMinus); }
        return Some(Minus);
      } else if c == '<' {
        matched := Match('-');
        if matched { return Some(ChanSendRecv); }
        matched := Match('=');
        if matched { return Some(LessEq); }
        matched := Match('<');
        if matched { return Some(Shl); }
        return Some(Less);
      } else if c == '>' {
        matched := Match('=');
        if matched { return Some(GreaterEq); }
        matched := Match('>');
        if matched { return Some(Shr); }
        return Some(Greater);
      } else if c == '&' {
        matched := Match('&');
        if matched { return Some(AmpAmp); }
        return Some(Amp);
      } else if c == '|' {
        matched := Match('|');
        if matched { return Some(PipePipe); }
        return Some(Pipe);
      } else if c == '!' {
        matched := Match('=');
        if matched { return Some(NotEq); }
        return Some(Not);
      } else if c == '+' {
        matched := Match('=');
        if matched { return Some(PlusEq); }
        matched := Match('+');
        if matched { return Some(PlusPlus); }
        return Some(Plus);
      } else if c == '*' {
        matched := Match('=');
        if matched { return Some(StarEq); }
        return Some(Star);
      } else if c == '/' {
        matched := Match('=');
        if matched { return Some(SlashEq); }
        return Some(Slash);
      } else if c == '%' {
        return Some(Percent);
      } else if c == '^' {
        return Some(Caret);
      } else if c == '~' {
        return Some(Tilde);
      } else if c == '(' {
        return Some(LParen);
      } else if c == ')' {
        return Some(RParen);
      } else if c == '{' {
        return Some(LBrace);
      } else if c == '}' {
        return Some(RBrace);
      } else if c == '[' {
        return Some(LBracket);
      } else if c == ']' {
        return Some(RBracket);
      } else if c == ',' {
        return Some(Comma);
      } else if c == '.' {
        var range := Match('.');
        if range {
          var inclusive := Match('=');
          if inclusive { return Some(RangeInclusive); }
          return Some(Range);
        }
        return Some(Dot);
      } else if c == '#' {
        return Some(Hash);
      } else if c == '@' {
        return Some(At);
      }
      return None;
    }

    /** One token, none after an unexpected character. */
    method ScanToken() returns (token: Option<Token>)
      requires Valid() && pos < |src|
      modifies this
      ensures Valid()
      ensures
        var s, tokens := Scan(src, old(pos)), TokensOf(src, old(pos));
        && pos == s.next && err == (old(err) || !s.ok)
        && token == if tokens == [] then None else Some(tokens[0])
    {
      var start, lineStart, colStart := pos, line, col;
      var c := Peek(src, pos);
      if IsAlpha(c) || c == '_' {
        ScanWord();
        return Some(Token(Keyword(src[start..pos]), src[start..pos], lineStart, colStart, start));
      } else if IsDigit(c) || (c == '.' && IsDigit(Peek(src, pos + 1))) {
        if c == '0' && (Peek(src, pos + 1) == 'x' || Peek(src, pos + 1) == 'X') {
          ScanHex();
          return Some(Token(Int, src[start..pos], lineStart, colStart, start));
        }
        assert NumberEnd(src, pos, false) == NumberEnd(src, pos + 1, c == '.');
        var hasDot := ScanNumber();
        return Some(Token(if hasDot then Float else Int, src[start..pos], lineStart, colStart, start));
      } else if c == '"' {
        var textEnd := ScanString();
        return Some(Token(String, src[start + 1..textEnd], lineStart, colStart, start));
      }
      var kind := ScanOperator();
      if kind.None? {
        err := true;
        return None;
      }
      return Some(Token(kind.value, src[start..pos], lineStart, colStart, start));
    }

    method Tokenize() returns (tokens: seq<Token>)
      requires Valid()
      modifies this
      ensures Valid() && pos == |src|
      ensures tokens == Lex(src, old(pos)).0 + [EofToken(src)] && err == !Lex(src, old(pos)).1
    {
      hide Scan, SkipEnd, Line, Col, Lex, TokensOf;
      tokens := [];
      err := false;
      while pos < |src|
        invariant Valid()
        invariant tokens + Lex(src, pos).0 == Lex(src, old(pos)).0
        invariant (err || !Lex(src, pos).1) == !Lex(src, old(pos)).1
        decreases |src| - pos
      {
        LexStep(src, pos);
        SkipWhitespaceAndComments();
        if pos < |src| {
          var token := ScanToken();
          if token.Some? { tokens := tokens + [token.value]; }
        } else {
          LexingLaws.LexEnd(src);
        }
      }
      LexingLaws.LexEnd(src);
      tokens := tokens + [Token(Eof, "", line, col, pos)];
    }
  }

  lemma CommentMoves(src: string, p: nat)
    requires p + 2 <= |src| && src[p] == '/' && src[p + 1] == '/'
    ensures LineCommentEnd(src, p) == LineCommentEnd(src, p + 2) > p
  {
    assert LineCommentEnd(src, p + 1) == LineCommentEnd(src, p + 2);
  }

  lemma LexStep(src: string, p: nat)
    requires p < |src|
    ensures
      var (q, skipped) := SkipEnd(src, p);
      if q == |src| then Lex(src, p) == ([], skipped)
      else
        && |TokensOf(src, q)| <= 1
        && Lex(src, p) ==
           (TokensOf(src, q) + Lex(src, Scan(src, q).next).0, skipped && Scan(src, q).ok
             && Lex(src, Scan(src, q).next).1)
  {
    hide Scan, SkipEnd, Line, Col;
  }
}
