/** What the tokens of a source text are: they tile it, with only blanks in between, and printing them and
    lexing again gives them back. */
module LexingLaws {
  import opened Options
  import opened Lexing

  // ----- operators

  /** An operator is spelled at p. */
  predicate SpelledAt(src: string, p: nat, n: nat)
  {
    p + n <= |src| && OperatorType(src[p..p + n]).Some?
  }

  lemma OneCharacterIs(src: string, p: nat)
    requires p < |src|
    ensures OneCharacter(src[p]).Some? == OperatorAt(src, p).Some?
    ensures OperatorAt(src, p).Some? && OperatorAt(src, p).value.1 == 1 ==>
      OneCharacter(src[p]) == Some(OperatorAt(src, p).value.0)
  {
  }

  lemma TwoCharactersAre(src: string, p: nat)
    requires p < |src|
    ensures
      var o, d := OperatorAt(src, p), Peek(src, p + 1);
      && (TwoCharacters(src[p], d).Some? <==> o.Some? && o.value.1 >= 2)
      && (o.Some? && o.value.1 == 2 ==> TwoCharacters(src[p], d) == Some(o.value.0))
      && (o.Some? && o.value.1 == 3 <==> src[p] == '.' && d == '.' && Peek(src, p + 2) == '=')
      && (o.Some? && o.value.1 >= 3 ==> o.value == (RangeInclusive, 3))
  {
  }

  /** The scanner takes the longest operator that the text starts with, and fails only if there is none. */
  lemma LongestOperator(src: string, p: nat)
    requires p < |src|
    ensures OperatorAt(src, p).None? ==> forall n: nat :: !SpelledAt(src, p, n)
    ensures OperatorAt(src, p).Some? ==>
      var (t, n) := OperatorAt(src, p).value;
      p + n <= |src| && OperatorType(src[p..p + n]) == Some(t) && forall m: nat :: SpelledAt(src, p, m) ==> m <= n
  {
    hide OneCharacter, TwoCharacters, OperatorAt;
    var c, d := src[p], Peek(src, p + 1);
    OneCharacterIs(src, p);
    TwoCharactersAre(src, p);
    assert forall n: nat :: SpelledAt(src, p, n) ==> n == 1 || n == 2 || (n == 3 && src[p..p + 3] == "..=");
    if p + 3 <= |src| { assert src[p..p + 3] == [c, d, src[p + 2]]; }
  }

  // ----- tiling

  predicate IsLineComment(s: string) {
    |s| >= 2 && s[0] == '/' && s[1] == '/' && '\n' !in s
  }

  ghost predicate IsBlockComment(s: string) {
    && |s| >= 4 && s[0] == '/' && s[1] == '*' && s[|s| - 2] == '*' && s[|s| - 1] == '/'
    && NoClose(s, 2, |s| - 2)
  }

  ghost predicate NoClose(s: string, from: nat, to: nat) {
    forall k :: from <= k < to && k + 1 < |s| ==> !(s[k] == '*' && s[k + 1] == '/')
  }

  /** White space and comments. */
  ghost predicate Blank(s: string)
    decreases |s|
  {
    || s == ""
    || (IsSpace(s[0]) && Blank(s[1..]))
    || exists n: nat :: 2 <= n <= |s| && IsComment(s[..n]) && Blank(s[n..])
  }

  ghost predicate IsComment(s: string) {
    IsLineComment(s) || IsBlockComment(s)
  }

  /** How a token is written. */
  function Spelling(kind: TokenType, value: string): string {
    if kind == String then "\"" + value + "\"" else value
  }

  function Written(t: Token): string {
    Spelling(t.kind, t.value)
  }

  function End(t: Token): nat {
    t.start + |Written(t)|
  }

  /** The text from p on is blanks and the tokens, as written, in turn. */
  ghost predicate Tiling(src: string, p: nat, tokens: seq<Token>)
    decreases |tokens|
  {
    if tokens == [] then p <= |src| && Blank(src[p..])
    else
      var t := tokens[0];
      && p <= t.start < End(t) <= |src|
      && Blank(src[p..t.start]) && src[t.start..End(t)] == Written(t)
      && Tiling(src, End(t), tokens[1..])
  }

  lemma {:induction false} LineCommentIs(src: string, p: nat)
    requires p <= |src|
    ensures '\n' !in src[p..LineCommentEnd(src, p)]
    decreases |src| - p
  {
    var q := LineCommentEnd(src, p);
    if q != p {
      LineCommentIs(src, p + 1);
      assert src[p..q] == [src[p]] + src[p + 1..q];
    }
  }

  lemma {:induction false} BlockCommentIs(src: string, p: nat)
    requires p <= |src| && BlockCommentEnd(src, p).1
    ensures
      var q := BlockCommentEnd(src, p).0;
      q >= p + 2 && src[q - 2] == '*' && src[q - 1] == '/' && NoClose(src, p, q - 2)
    decreases |src| - p
  {
    if !(Peek(src, p) == '*' && Peek(src, p + 1) == '/') {
      BlockCommentIs(src, p + 1);
    }
  }

  lemma CommentBlank(src: string, p: nat, n: nat, q: nat)
    requires p + n <= q <= |src| && n >= 2 && IsComment(src[p..p + n]) && Blank(src[p + n..q])
    ensures Blank(src[p..q])
  {
    var s := src[p..q];
    assert s[..n] == src[p..p + n] && s[n..] == src[p + n..q];
  }

  lemma {:induction false} SkipIsBlank(src: string, p: nat)
    requires p <= |src| && SkipEnd(src, p).1
    ensures Blank(src[p..SkipEnd(src, p).0])
    decreases |src| - p
  {
    hide Blank, IsComment;
    var c := Peek(src, p);
    var q := SkipEnd(src, p).0;
    if IsSpace(c) {
      SkipIsBlank(src, p + 1);
      SpaceBlank(src, p, q);
    } else if c == '/' && Peek(src, p + 1) == '/' {
      var e := LineCommentEnd(src, p + 2);
      SkipIsBlank(src, e);
      LineCommentIs(src, p + 2);
      LineIsComment(src, p, e);
      CommentBlank(src, p, e - p, q);
    } else if c == '/' && Peek(src, p + 1) == '*' {
      var e := BlockCommentEnd(src, p + 2).0;
      SkipIsBlank(src, e);
      BlockCommentIs(src, p + 2);
      BlockIsComment(src, p, e);
      CommentBlank(src, p, e - p, q);
    } else {
      EmptyBlank(src[p..p]);
    }
  }

  lemma EmptyBlank(s: string)
    requires |s| == 0
    ensures Blank(s)
  {
  }

  lemma SpaceBlank(src: string, p: nat, q: nat)
    requires p < q <= |src| && IsSpace(src[p]) && Blank(src[p + 1..q])
    ensures Blank(src[p..q])
  {
    assert src[p..q][1..] == src[p + 1..q];
  }

  lemma LineIsComment(src: string, p: nat, e: nat)
    requires p + 2 <= e <= |src| && src[p] == '/' && src[p + 1] == '/' && '\n' !in src[p + 2..e]
    ensures IsComment(src[p..e])
  {
    assert src[p..e] == [src[p], src[p + 1]] + src[p + 2..e];
  }

  lemma BlockIsComment(src: string, p: nat, e: nat)
    requires p + 4 <= e <= |src| && src[p] == '/' && src[p + 1] == '*' && src[e - 2] == '*' && src[e - 1] == '/'
      && NoClose(src, p + 2, e - 2)
    ensures IsComment(src[p..e])
  {
    var s := src[p..e];
    forall k | 2 <= k < |s| - 2 && k + 1 < |s| ensures !(s[k] == '*' && s[k + 1] == '/') {
      assert s[k] == src[p + k] && s[k + 1] == src[p + k + 1];
    }
  }

  /** What was scanned is how the token is written. */
  lemma ScannedIsWritten(src: string, p: nat)
    requires p < |src| && Scan(src, p).ok
    ensures
      var s := Scan(src, p);
      src[p..s.next] == Spelling(s.token.value.0, s.token.value.1)
  {
    hide WordEnd, HexEnd, NumberEnd, StringEnd, OperatorAt, Keyword;
    KeywordIsWord(src[p..WordEnd(src, p + 1)]);
    if OperatorAt(src, p).Some? { OperatorIsNoString(src, p); }
    var s := Scan(src, p);
    if src[p] == '"' {
      var q := StringEnd(src, p + 1).0;
      assert src[p..q + 1] == [src[p]] + src[p + 1..q] + [src[q]];
    }
  }

  lemma KeywordIsWord(id: string)
    ensures Keyword(id) != String
  {
  }

  lemma OperatorIsNoString(src: string, p: nat)
    requires OperatorAt(src, p).Some?
    ensures OperatorAt(src, p).value.0 != String
  {
  }

  /** The tokens of a source without errors tile it. */
  lemma {:induction false} TokensTile(src: string, p: nat)
    requires p <= |src| && Lex(src, p).1
    ensures Tiling(src, p, Lex(src, p).0)
    decreases |src| - p
  {
    hide Blank, Scan, SkipEnd, Spelling, Line, Col;
    if p == |src| {
      EmptyBlank(src[p..]);
    } else {
      SkipIsBlank(src, p);
      var q := SkipEnd(src, p).0;
      if q == |src| {
        assert src[p..q] == src[p..];
      } else {
        var s := Scan(src, q);
        ScannedIsWritten(src, q);
        TokensTile(src, s.next);
        var tokens := Lex(src, p).0;
        assert tokens[1..] == Lex(src, s.next).0;
      }
    }
  }

  /** Spans of tiles are increasing and disjoint. */
  lemma {:induction false} TilesApart(src: string, p: nat, tokens: seq<Token>, i: nat, j: nat)
    requires Tiling(src, p, tokens) && i < j < |tokens|
    ensures p <= tokens[i].start < End(tokens[i]) <= tokens[j].start < End(tokens[j]) <= |src|
    decreases j
  {
    hide Blank, Spelling;
    var rest := tokens[1..];
    assert forall k :: 0 <= k < |rest| ==> rest[k] == tokens[k + 1];
    if i > 0 { TilesApart(src, End(tokens[0]), rest, i - 1, j - 1); }
    else if j > 1 { TilesApart(src, End(tokens[0]), rest, 0, j - 1); }
  }

  /** The n characters before p have no line feed, and p is the first of them or follows a line feed. */
  predicate LineStarts(src: string, p: nat, n: nat)
    requires n <= p <= |src|
  {
    '\n' !in src[p - n..p] && (n < p ==> src[p - n - 1] == '\n')
  }

  /** One line more than there are line feeds before p, one column more than there are characters since. */
  predicate PositionOf(src: string, p: nat, line: nat, col: nat) {
    p <= |src| && line == 1 + multiset(src[..p])['\n'] && 1 <= col <= p + 1 && LineStarts(src, p, col - 1)
  }

  lemma {:induction false} LineCounts(src: string, p: nat)
    requires p <= |src|
    ensures Line(src, p) == 1 + multiset(src[..p])['\n']
    decreases p
  {
    if p > 0 {
      LineCounts(src, p - 1);
      assert src[..p] == src[..p - 1] + [src[p - 1]];
    }
  }

  lemma LongerLine(src: string, p: nat, n: nat)
    requires n < p <= |src| && LineStarts(src, p - 1, n) && src[p - 1] != '\n'
    ensures LineStarts(src, p, n + 1)
  {
    assert src[p - 1 - n..p] == src[p - 1 - n..p - 1] + [src[p - 1]];
  }

  lemma NewLine(src: string, p: nat)
    requires p <= |src| && (p == 0 || src[p - 1] == '\n')
    ensures LineStarts(src, p, 0)
  {
    assert src[p..p] == [];
  }

  lemma {:induction false} ColCounts(src: string, p: nat)
    requires p <= |src|
    ensures 1 <= Col(src, p) <= p + 1 && LineStarts(src, p, Col(src, p) - 1)
    decreases p
  {
    hide LineStarts;
    if p == 0 || src[p - 1] == '\n' {
      NewLine(src, p);
    } else {
      ColCounts(src, p - 1);
      LongerLine(src, p, Col(src, p - 1) - 1);
    }
  }

  lemma Positions(src: string, p: nat)
    requires p <= |src|
    ensures PositionOf(src, p, Line(src, p), Col(src, p))
  {
    LineCounts(src, p);
    ColCounts(src, p);
  }

  ghost predicate Counted(src: string, p: nat, t: Token) {
    p <= t.start < |src| && PositionOf(src, t.start, t.line, t.col)
  }

  /** Lines and columns count the characters before the token, with errors or without. */
  lemma {:induction false} PositionsAreCounted(src: string, p: nat, i: nat)
    requires p <= |src| && i < |Lex(src, p).0|
    ensures Counted(src, p, Lex(src, p).0[i])
    decreases |src| - p
  {
    hide Scan, SkipEnd, Line, Col, PositionOf;
    if p < |src| {
      var q := SkipEnd(src, p).0;
      if q < |src| {
        Positions(src, q);
        var s := Scan(src, q);
        if s.token.None? {
          PositionsAreCounted(src, s.next, i);
        } else if i > 0 {
          PositionsAreCounted(src, s.next, i - 1);
        }
      }
    }
  }

  // ----- printing and lexing again

  function Printed(tokens: seq<Token>): string {
    if tokens == [] then "" else if |tokens| == 1 then Written(tokens[0])
    else Written(tokens[0]) + " " + Printed(tokens[1..])
  }

  /** The same types and texts. */
  ghost predicate SameTokens(a: seq<Token>, b: seq<Token>) {
    |a| == |b| && forall i :: 0 <= i < |a| ==> a[i].kind == b[i].kind && a[i].value == b[i].value
  }

  /** The next character ends any token. */
  predicate Stops(src: string, q: nat) {
    q == |src| || (q < |src| && src[q] == ' ')
  }

  /** The same text of length n at both places, which ends there in the second source. */
  predicate Copied(src: string, p: nat, src': string, p': nat, n: nat) {
    p + n <= |src| && p' + n <= |src'| && src[p..p + n] == src'[p'..p' + n] && Stops(src', p' + n)
  }

  lemma CopiedAt(src: string, p: nat, src': string, p': nat, n: nat, k: nat)
    requires Copied(src, p, src', p', n) && k < n
    ensures src[p + k] == src'[p' + k] && Copied(src, p + k, src', p' + k, n - k)
  {
    assert src[p..p + n][k] == src'[p'..p' + n][k];
    assert src[p + k..p + n] == src[p..p + n][k..] && src'[p' + k..p' + n] == src'[p'..p' + n][k..];
  }

  lemma {:induction false} WordCopied(src: string, p: nat, src': string, p': nat, n: nat)
    requires Copied(src, p, src', p', n) && WordEnd(src, p) == p + n
    ensures WordEnd(src', p') == p' + n
    decreases n
  {
    if n > 0 {
      CopiedAt(src, p, src', p', n, 0);
      StepCopied(src, p, src', p', n, 1);
      WordCopied(src, p + 1, src', p' + 1, n - 1);
    }
  }

  lemma StepCopied(src: string, p: nat, src': string, p': nat, n: nat, k: nat)
    requires Copied(src, p, src', p', n) && k <= n
    ensures Copied(src, p + k, src', p' + k, n - k)
  {
    if k < n { CopiedAt(src, p, src', p', n, k); }
  }

  lemma {:induction false} HexCopied(src: string, p: nat, src': string, p': nat, n: nat)
    requires Copied(src, p, src', p', n) && HexEnd(src, p) == p + n
    ensures HexEnd(src', p') == p' + n
    decreases n
  {
    if n > 0 {
      CopiedAt(src, p, src', p', n, 0);
      StepCopied(src, p, src', p', n, 1);
      HexCopied(src, p + 1, src', p' + 1, n - 1);
    }
  }

  lemma {:induction false} NumberCopied(src: string, p: nat, src': string, p': nat, n: nat, hasDot: bool)
    requires Copied(src, p, src', p', n) && NumberEnd(src, p, hasDot).end == p + n && NumberEnd(src, p, hasDot).ok
    ensures NumberEnd(src', p', hasDot) == NumberEnd(src, p, hasDot).(end := p' + n)
    decreases n
  {
    if n > 0 {
      CopiedAt(src, p, src', p', n, 0);
      if n > 1 { CopiedAt(src, p, src', p', n, 1); }
      StepCopied(src, p, src', p', n, 1);
      NumberCopied(src, p + 1, src', p' + 1, n - 1, hasDot || src[p] == '.');
    }
  }

  lemma {:induction false} StringCopied(src: string, p: nat, src': string, p': nat, n: nat)
    requires Copied(src, p, src', p', n + 1) && StringEnd(src, p) == (p + n, true)
    ensures StringEnd(src', p') == (p' + n, true)
    decreases n
  {
    hide Copied;
    CopiedMeans(src, p, src', p', n + 1);
    CopiedAt(src, p, src', p', n + 1, 0);
    if n > 0 {
      CopiedAt(src, p, src', p', n + 1, 1);
      var k := if src[p] == '\\' then (if Peek(src, p + 1) != '\0' then 2 else 1) else 1;
      StepCopied(src, p, src', p', n + 1, k);
      StringCopied(src, p + k, src', p' + k, n - k);
    }
  }

  lemma OperatorCopied(src: string, p: nat, src': string, p': nat, n: nat)
    requires Copied(src, p, src', p', n) && OperatorAt(src, p).Some? && OperatorAt(src, p).value.1 == n
    ensures OperatorAt(src', p') == OperatorAt(src, p)
  {
    CopiedAt(src, p, src', p', n, 0);
    if n > 1 { CopiedAt(src, p, src', p', n, 1); }
    if n > 2 { CopiedAt(src, p, src', p', n, 2); }
  }

  /** A token scanned without error is scanned again wherever its text stands before a space or the end. */
  lemma ScanCopied(src: string, p: nat, src': string, p': nat)
    requires p < |src| && Scan(src, p).ok && Copied(src, p, src', p', Scan(src, p).next - p)
    ensures Scan(src', p') == Scan(src, p).(next := p' + Scan(src, p).next - p)
  {
    hide Copied, Scan;
    var c := src[p];
    if IsAlpha(c) || c == '_' {
      ScanWordCopied(src, p, src', p');
    } else if IsDigit(c) || (c == '.' && IsDigit(Peek(src, p + 1))) {
      ScanNumberCopied(src, p, src', p');
    } else if c == '"' {
      ScanStringCopied(src, p, src', p');
    } else {
      ScanOperatorCopied(src, p, src', p');
    }
  }

  lemma ScanWordCopied(src: string, p: nat, src': string, p': nat)
    requires p < |src| && Scan(src, p).ok && Copied(src, p, src', p', Scan(src, p).next - p)
    requires IsAlpha(src[p]) || src[p] == '_'
    ensures Scan(src', p') == Scan(src, p).(next := p' + Scan(src, p).next - p)
  {
    hide Copied, WordEnd, HexEnd, NumberEnd, StringEnd, OperatorAt, Keyword;
    var n := Scan(src, p).next - p;
    CopiedAt(src, p, src', p', n, 0);
    CopiedMeans(src, p, src', p', n);
    StepCopied(src, p, src', p', n, 1);
    WordCopied(src, p + 1, src', p' + 1, n - 1);
  }

  lemma ScanNumberCopied(src: string, p: nat, src': string, p': nat)
    requires p < |src| && Scan(src, p).ok && Copied(src, p, src', p', Scan(src, p).next - p)
    requires IsDigit(src[p]) || (src[p] == '.' && IsDigit(Peek(src, p + 1)))
    ensures Scan(src', p') == Scan(src, p).(next := p' + Scan(src, p).next - p)
  {
    hide Copied, WordEnd, HexEnd, NumberEnd, StringEnd, OperatorAt, Keyword;
    var n := Scan(src, p).next - p;
    var c := src[p];
    CopiedAt(src, p, src', p', n, 0);
    CopiedMeans(src, p, src', p', n);
    if n > 1 { CopiedAt(src, p, src', p', n, 1); }
    if c == '.' { DotNumber(src, p); }
    if c == '0' && (Peek(src, p + 1) == 'x' || Peek(src, p + 1) == 'X') {
      StepCopied(src, p, src', p', n, 2);
      HexCopied(src, p + 2, src', p' + 2, n - 2);
    } else {
      StepCopied(src, p, src', p', n, 1);
      NumberCopied(src, p + 1, src', p' + 1, n - 1, c == '.');
    }
  }

  lemma ScanStringCopied(src: string, p: nat, src': string, p': nat)
    requires p < |src| && Scan(src, p).ok && Copied(src, p, src', p', Scan(src, p).next - p)
    requires src[p] == '"'
    ensures Scan(src', p') == Scan(src, p).(next := p' + Scan(src, p).next - p)
  {
    hide Copied, WordEnd, HexEnd, NumberEnd, StringEnd, OperatorAt, Keyword;
    var n := Scan(src, p).next - p;
    CopiedAt(src, p, src', p', n, 0);
    CopiedMeans(src, p, src', p', n);
    StepCopied(src, p, src', p', n, 1);
    StringCopied(src, p + 1, src', p' + 1, n - 2);
    InnerTexts(src, p, src', p', n);
  }

  lemma ScanOperatorCopied(src: string, p: nat, src': string, p': nat)
    requires p < |src| && Scan(src, p).ok && Copied(src, p, src', p', Scan(src, p).next - p)
    requires !IsAlpha(src[p]) && src[p] != '_' && !IsDigit(src[p]) && src[p] != '"'
    requires !(src[p] == '.' && IsDigit(Peek(src, p + 1)))
    ensures Scan(src', p') == Scan(src, p).(next := p' + Scan(src, p).next - p)
  {
    hide Copied, WordEnd, HexEnd, NumberEnd, StringEnd, OperatorAt, Keyword;
    var n := Scan(src, p).next - p;
    CopiedAt(src, p, src', p', n, 0);
    CopiedMeans(src, p, src', p', n);
    if n > 1 { CopiedAt(src, p, src', p', n, 1); }
    OperatorCopied(src, p, src', p', n);
  }

  lemma CopiedMeans(src: string, p: nat, src': string, p': nat, n: nat)
    requires Copied(src, p, src', p', n)
    ensures p + n <= |src| && p' + n <= |src'| && src[p..p + n] == src'[p'..p' + n]
    ensures Peek(src', p' + n) == ' ' || Peek(src', p' + n) == '\0'
  {
  }

  lemma DotNumber(src: string, p: nat)
    requires p < |src| && src[p] == '.' && IsDigit(Peek(src, p + 1))
    ensures NumberEnd(src, p + 1, true).end > p + 1
  {
    assert NumberEnd(src, p + 1, true) == NumberEnd(src, p + 2, true);
  }

  lemma InnerTexts(src: string, p: nat, src': string, p': nat, n: nat)
    requires n >= 2 && p + n <= |src| && p' + n <= |src'| && src[p..p + n] == src'[p'..p' + n]
    ensures src[p + 1..p + n - 1] == src'[p' + 1..p' + n - 1]
  {
    InnerText(src, p, n);
    InnerText(src', p', n);
  }

  lemma InnerText(s: string, p: nat, n: nat)
    requires n >= 2 && p + n <= |s|
    ensures s[p..p + n][1..n - 1] == s[p + 1..p + n - 1]
  {
    var whole, inner := s[p..p + n][1..n - 1], s[p + 1..p + n - 1];
    assert |whole| == |inner| && forall i :: 0 <= i < |whole| ==> whole[i] == inner[i];
  }

  /** Neither white space nor a comment starts here. */
  predicate Starts(src: string, p: nat) {
    && p < |src| && !IsSpace(src[p])
    && !(src[p] == '/' && (Peek(src, p + 1) == '/' || Peek(src, p + 1) == '*'))
  }

  lemma {:induction false} SkipStarts(src: string, p: nat)
    requires p <= |src|
    ensures var q := SkipEnd(src, p).0; q < |src| ==> Starts(src, q)
    decreases |src| - p
  {
    var c := Peek(src, p);
    if IsSpace(c) {
      SkipStarts(src, p + 1);
    } else if c == '/' && Peek(src, p + 1) == '/' {
      SkipStarts(src, LineCommentEnd(src, p + 2));
    } else if c == '/' && Peek(src, p + 1) == '*' {
      SkipStarts(src, BlockCommentEnd(src, p + 2).0);
    }
  }

  lemma StartsCopied(src: string, p: nat, src': string, p': nat)
    requires Starts(src, p) && Scan(src, p).ok && Copied(src, p, src', p', Scan(src, p).next - p)
    ensures Starts(src', p')
  {
    hide Copied, WordEnd, HexEnd, NumberEnd, StringEnd, Keyword;
    var n := Scan(src, p).next - p;
    CopiedAt(src, p, src', p', n, 0);
    CopiedMeans(src, p, src', p', n);
    if n > 1 { CopiedAt(src, p, src', p', n, 1); }
  }

  /** A type and a text that are scanned from the text as it is written. */
  ghost predicate Lexeme(kind: TokenType, value: string) {
    var s := Spelling(kind, value);
    s != "" && Starts(s, 0) && Scan(s, 0) == Scanned(Some((kind, value)), |s|, true)
  }

  lemma TokenIsLexeme(src: string, p: nat)
    requires Starts(src, p) && Scan(src, p).ok
    ensures var t := Scan(src, p).token.value; Lexeme(t.0, t.1)
  {
    hide Scan, Starts, Spelling, Stops;
    var s := Scan(src, p);
    ScannedIsWritten(src, p);
    var written := Spelling(s.token.value.0, s.token.value.1);
    assert written[0..|written|] == written;
    assert Stops(written, |written|) by { AtEnd(written); }
    ScanCopied(src, p, written, 0);
    StartsCopied(src, p, written, 0);
  }

  lemma AtEnd(s: string)
    ensures Stops(s, |s|)
  {
  }

  ghost predicate Lexemes(tokens: seq<Token>) {
    forall i :: 0 <= i < |tokens| ==> Lexeme(tokens[i].kind, tokens[i].value)
  }

  lemma {:induction false} TokensAreLexemes(src: string, p: nat)
    requires p <= |src| && Lex(src, p).1
    ensures Lexemes(Lex(src, p).0)
    decreases |src| - p
  {
    hide Scan, SkipEnd, Lexeme, Starts, Line, Col;
    if p < |src| {
      var q := SkipEnd(src, p).0;
      if q < |src| {
        SkipStarts(src, p);
        TokenIsLexeme(src, q);
        TokensAreLexemes(src, Scan(src, q).next);
      }
    }
  }

  lemma SpaceSkipped(src: string, p: nat)
    requires p < |src| && src[p] == ' '
    ensures Lex(src, p) == Lex(src, p + 1)
  {
    hide Scan, Line, Col;
    assert SkipEnd(src, p) == SkipEnd(src, p + 1);
  }

  lemma LexOne(src: string, p: nat)
    requires Starts(src, p)
    ensures
      var s := Scan(src, p);
      var (rest, ok) := Lex(src, s.next);
      Lex(src, p) == (TokensOf(src, p) + rest, s.ok && ok)
  {
    hide Scan, Line, Col;
    assert SkipEnd(src, p) == (p, true);
  }

  /** The tokens printed at the end of a text are lexed as they are. */
  lemma {:induction false} LexPrinted(src: string, p: nat, tokens: seq<Token>)
    requires p <= |src| && src[p..] == Printed(tokens) && Lexemes(tokens)
    ensures Lex(src, p).1 && SameTokens(tokens, Lex(src, p).0)
    decreases |tokens|
  {
    hide Scan, Starts, Lexeme, Lex, Line, Col, Spelling;
    if tokens == [] {
      assert p == |src|;
      LexEnd(src);
    } else {
      var t := tokens[0];
      assert Lexeme(t.kind, t.value);
      var n := |Written(t)|;
      var rest := tokens[1..];
      assert Printed(tokens) == Written(t) + (if rest == [] then "" else " " + Printed(rest));
      assert src[p..p + n] == Written(t)[0..0 + n] by { assert src[p..][..n] == Written(t); }
      assert rest == [] ==> p + n == |src|;
      assert rest != [] ==> src[p + n] == src[p..][n] == ' ';
      PrintedFirst(src, p, t);
      assert rest != [] ==> src[p + n + 1..] == src[p..][n + 1..] == Printed(rest);
      if rest == [] {
        LexEnd(src);
      } else {
        SpaceSkipped(src, p + n);
        LexPrinted(src, p + n + 1, rest);
      }
    }
  }

  lemma LexEnd(src: string)
    ensures Lex(src, |src|) == ([], true)
  {
  }

  lemma PrintedFirst(src: string, p: nat, t: Token)
    requires Lexeme(t.kind, t.value) && Copied(Written(t), 0, src, p, |Written(t)|)
    ensures
      var next := p + |Written(t)|;
      next <= |src|
        && Lex(src, p) == ([Token(t.kind, t.value, Line(src, p), Col(src, p), p)] + Lex(src, next).0, Lex(src, next).1)
  {
    hide Scan, Starts, Line, Col, Lex, Spelling;
    ScanCopied(Written(t), 0, src, p);
    StartsCopied(Written(t), 0, src, p);
    LexOne(src, p);
  }

  /** Printing the tokens of a source without errors and lexing again gives the same types and texts. */
  lemma RoundTrip(src: string)
    requires Lex(src, 0).1
    ensures
      var tokens := Lex(src, 0).0;
      Lex(Printed(tokens), 0).1 && SameTokens(tokens, Lex(Printed(tokens), 0).0)
  {
    hide Lex, Lexemes, Printed;
    var tokens := Lex(src, 0).0;
    TokensAreLexemes(src, 0);
    assert Printed(tokens)[0..] == Printed(tokens);
    LexPrinted(Printed(tokens), 0, tokens);
  }
}
