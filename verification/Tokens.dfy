/** What each token is, described by the text around it and apart from the scanner: the scanner finds the one
    token that meets the description. */
module Tokens {
  import opened Options
  import opened Lexing
  import opened LexingLaws
  import opened Keywords

  /** The classes of characters by their codes. */
  lemma CharacterClasses(c: char)
    ensures IsDigit(c) <==> 48 <= c as int <= 57
    ensures IsHexDigit(c) <==> 48 <= c as int <= 57 || 65 <= c as int <= 70 || 97 <= c as int <= 102
    ensures IsAlpha(c) <==> 65 <= c as int <= 90 || 97 <= c as int <= 122
    ensures IsSpace(c) <==> c as int == 32 || 9 <= c as int <= 13
  {
  }

  predicate At(src: string, p: nat, s: string) {
    s != "" && p + |s| <= |src| && src[p..p + |s|] == s
  }

  // ----- words

  predicate StartsWord(c: char) {
    IsAlpha(c) || c == '_'
  }

  /** All of a word and nothing more. */
  ghost predicate WordAt(src: string, p: nat, s: string) {
    && At(src, p, s) && StartsWord(s[0]) && (forall i :: 0 <= i < |s| ==> IsWordChar(s[i]))
    && !IsWordChar(Peek(src, p + |s|))
  }

  lemma {:induction false} WordEndIs(src: string, p: nat)
    requires p <= |src|
    ensures !IsWordChar(Peek(src, WordEnd(src, p))) && forall i :: p <= i < WordEnd(src, p) ==> IsWordChar(src[i])
    decreases |src| - p
  {
    if p < |src| && IsWordChar(src[p]) { WordEndIs(src, p + 1); }
  }

  lemma WordReads(src: string, p: nat)
    requires p < |src| && StartsWord(src[p])
    ensures var s := src[p..WordEnd(src, p + 1)]; WordAt(src, p, s) && WordKind(Keyword(s), s)
  {
    hide Keyword, WordKind, WordEnd;
    WordEndIs(src, p + 1);
    KeywordExactly(src[p..WordEnd(src, p + 1)], Keyword(src[p..WordEnd(src, p + 1)]));
  }

  lemma WordLongest(src: string, p: nat, s: string, t: string)
    requires WordAt(src, p, s) && WordAt(src, p, t)
    ensures |s| >= |t|
  {
    forall k | 0 <= k < |t| ensures Peek(src, p + k) == t[k] {}
  }

  lemma WordOnce(src: string, p: nat, kind: TokenType, s: string, kind': TokenType, t: string)
    requires WordAt(src, p, s) && WordAt(src, p, t) && WordKind(kind, s) && WordKind(kind', t)
    ensures kind == kind' && s == t
  {
    hide Keyword, WordKind;
    WordLongest(src, p, s, t);
    WordLongest(src, p, t, s);
    KeywordExactly(s, kind);
    KeywordExactly(s, kind');
  }

  // ----- numbers

  predicate StartsNumber(src: string, p: nat) {
    IsDigit(Peek(src, p)) || (Peek(src, p) == '.' && IsDigit(Peek(src, p + 1)))
  }

  predicate StartsHex(src: string, p: nat) {
    Peek(src, p) == '0' && (Peek(src, p + 1) == 'x' || Peek(src, p + 1) == 'X')
  }

  ghost predicate HexAt(src: string, p: nat, s: string) {
    && At(src, p, s) && |s| >= 2 && (forall i :: 2 <= i < |s| ==> IsHexDigit(s[i]))
    && !IsHexDigit(Peek(src, p + |s|))
  }

  predicate InNumber(src: string, i: nat) {
    IsDigit(Peek(src, i)) || (Peek(src, i) == '.' && Peek(src, i + 1) != '.')
  }

  ghost predicate OnePoint(src: string, p: nat, e: nat)
    requires p <= e <= |src|
  {
    forall i, j :: p <= i < j < e ==> !(src[i] == '.' && src[j] == '.')
  }

  /** Digits with at most one point, which no second point follows, up to a range or another character. */
  ghost predicate DecimalAt(src: string, p: nat, s: string) {
    && At(src, p, s)
    && (forall i :: p <= i < p + |s| ==> InNumber(src, i))
    && OnePoint(src, p, p + |s|)
    && !IsDigit(Peek(src, p + |s|))
    && (Peek(src, p + |s|) == '.' ==> Peek(src, p + |s| + 1) == '.' || '.' in s)
  }

  lemma {:induction false} HexEndIs(src: string, p: nat)
    requires p <= |src|
    ensures !IsHexDigit(Peek(src, HexEnd(src, p))) && forall i :: p <= i < HexEnd(src, p) ==> IsHexDigit(src[i])
    decreases |src| - p
  {
    if p < |src| && IsHexDigit(src[p]) { HexEndIs(src, p + 1); }
  }

  /** What NumberEnd passes from p on. */
  ghost predicate Passed(src: string, p: nat, hasDot: bool, n: Number)
    requires p <= n.end <= |src|
  {
    && (forall i :: p <= i < n.end ==> InNumber(src, i))
    && (hasDot ==> '.' !in src[p..n.end])
    && OnePoint(src, p, n.end)
    && n.hasDot == (hasDot || '.' in src[p..n.end])
    && !IsDigit(Peek(src, n.end))
    && (Peek(src, n.end) == '.' ==> Peek(src, n.end + 1) == '.' || n.hasDot)
    && n.ok == !(Peek(src, n.end) == '.' && Peek(src, n.end + 1) != '.')
  }

  lemma {:induction false} NumberEndIs(src: string, p: nat, hasDot: bool)
    requires p <= |src|
    ensures Passed(src, p, hasDot, NumberEnd(src, p, hasDot))
    decreases |src| - p
  {
    var c := Peek(src, p);
    var n := NumberEnd(src, p, hasDot);
    if IsDigit(c) {
      NumberEndIs(src, p + 1, hasDot);
      assert src[p..n.end] == [c] + src[p + 1..n.end];
    } else if c == '.' && Peek(src, p + 1) != '.' && !hasDot {
      NumberEndIs(src, p + 1, true);
      assert src[p..n.end] == [c] + src[p + 1..n.end];
    }
  }

  lemma NumberStarts(src: string, p: nat)
    requires p < |src| && StartsNumber(src, p)
    ensures NumberEnd(src, p, false) == NumberEnd(src, p + 1, src[p] == '.') && NumberEnd(src, p, false).end > p
  {
  }

  lemma NumberReads(src: string, p: nat)
    requires p < |src| && StartsNumber(src, p) && !StartsHex(src, p)
    ensures
      var n := NumberEnd(src, p + 1, src[p] == '.');
      && DecimalAt(src, p, src[p..n.end]) && (n.hasDot <==> '.' in src[p..n.end])
      && (n.ok <==> !(Peek(src, n.end) == '.' && Peek(src, n.end + 1) != '.'))
  {
    hide NumberEnd, OnePoint, InNumber, StartsHex, StartsNumber;
    NumberStarts(src, p);
    NumberEndIs(src, p, false);
  }

  lemma HexLongest(src: string, p: nat, s: string, t: string)
    requires HexAt(src, p, s) && HexAt(src, p, t)
    ensures |s| >= |t|
  {
    forall k | 0 <= k < |t| ensures Peek(src, p + k) == t[k] {}
  }

  lemma InNumberAt(src: string, p: nat, s: string, i: nat)
    ensures DecimalAt(src, p, s) && p <= i < p + |s| ==> InNumber(src, i)
  {
  }

  lemma PointAt(src: string, p: nat, s: string)
    requires At(src, p, s)
    ensures '.' in s ==> exists i :: p <= i < p + |s| && src[i] == '.'
  {
    if '.' in s {
      var k :| 0 <= k < |s| && s[k] == '.';
      assert src[p + k] == s[k];
    }
  }

  lemma DecimalLongest(src: string, p: nat, s: string, t: string)
    requires DecimalAt(src, p, s) && DecimalAt(src, p, t)
    ensures |s| >= |t|
  {
    InNumberAt(src, p, t, p + |s|);
    PointAt(src, p, s);
  }

  // ----- strings

  /** How many backslashes stand just before i, and not before p. */
  function Backslashes(src: string, p: nat, i: nat): nat
    requires p <= i <= |src|
  {
    if i > p && src[i - 1] == '\\' then Backslashes(src, p, i - 1) + 1 else 0
  }

  /** A text that begins at p can end at i: after an even number of backslashes there is a quote or the end of
      the line, or it is the end of the source. */
  predicate Ends(src: string, p: nat, i: nat)
    requires p <= i <= |src|
  {
    Peek(src, i) == '\0' || ((src[i] == '"' || src[i] == '\n') && Backslashes(src, p, i) % 2 == 0)
  }

  ghost predicate NoEnd(src: string, p: nat, q: nat, e: nat)
    requires p <= q <= e <= |src|
  {
    forall i :: q <= i < e ==> !Ends(src, p, i)
  }

  /** The text between a quote and the first place where it can end. */
  ghost predicate StringAt(src: string, p: nat, s: string) {
    && p + 1 + |s| <= |src| && src[p] == '"' && src[p + 1..p + 1 + |s|] == s
    && Ends(src, p + 1, p + 1 + |s|) && NoEnd(src, p + 1, p + 1, p + 1 + |s|)
  }

  lemma {:induction false} StringEndIs(src: string, p: nat, q: nat)
    requires p <= q <= |src| && Backslashes(src, p, q) % 2 == 0
    ensures var e := StringEnd(src, q).0; Ends(src, p, e) && NoEnd(src, p, q, e)
    ensures StringEnd(src, q).1 == (Peek(src, StringEnd(src, q).0) == '"')
    decreases |src| - q
  {
    if Peek(src, q) == '\\' {
      var next := if Peek(src, q + 1) != '\0' then q + 2 else q + 1;
      assert Backslashes(src, p, q + 1) == Backslashes(src, p, q) + 1;
      if Peek(src, q + 1) != '\0' {
        StringEndIs(src, p, q + 2);
        assert !Ends(src, p, q) && !Ends(src, p, q + 1);
      } else {
        assert StringEnd(src, q) == StringEnd(src, q + 1) == (q + 1, false);
      }
    } else if Peek(src, q) != '\0' && Peek(src, q) != '\n' && Peek(src, q) != '"' {
      StringEndIs(src, p, q + 1);
    }
  }

  // ----- any token

  /** An operator, and no longer one. */
  ghost predicate OperatorReads(src: string, p: nat, kind: TokenType, s: string) {
    At(src, p, s) && OperatorType(s) == Some(kind) && forall m: nat :: SpelledAt(src, p, m) ==> m <= |s|
  }

  lemma OperatorIsSpelled(src: string, p: nat, kind: TokenType, s: string)
    ensures OperatorReads(src, p, kind, s) ==> SpelledAt(src, p, |s|)
  {
  }

  /** The token at p, by the text from there on. */
  ghost predicate Reads(src: string, p: nat, kind: TokenType, s: string)
    requires p < |src|
  {
    if StartsWord(src[p]) then WordAt(src, p, s) && WordKind(kind, s)
    else if StartsHex(src, p) then HexAt(src, p, s) && kind == Int
    else if StartsNumber(src, p) then DecimalAt(src, p, s) && kind == if '.' in s then Float else Int
    else if src[p] == '"' then StringAt(src, p, s) && kind == String
    else OperatorReads(src, p, kind, s)
  }

  lemma ScanReads(src: string, p: nat)
    requires p < |src| && Scan(src, p).token.Some?
    ensures var (kind, s) := Scan(src, p).token.value; Reads(src, p, kind, s)
  {
    hide Keyword, WordAt, WordKind, DecimalAt, WordEnd, NumberEnd, StringEnd, OperatorAt, OperatorType;
    if StartsWord(src[p]) {
      WordReads(src, p);
    } else if StartsHex(src, p) {
      HexEndIs(src, p + 2);
    } else if StartsNumber(src, p) {
      NumberReads(src, p);
    } else if src[p] == '"' {
      StringEndIs(src, p + 1, p + 1);
    } else {
      LongestOperator(src, p);
    }
  }

  lemma OperatorOnce(src: string, p: nat, kind: TokenType, s: string, kind': TokenType, t: string)
    requires OperatorReads(src, p, kind, s) && OperatorReads(src, p, kind', t)
    ensures kind == kind' && s == t
  {
    hide OperatorType;
    OperatorIsSpelled(src, p, kind, s);
    OperatorIsSpelled(src, p, kind', t);
  }

  lemma ReadsOnce(src: string, p: nat, kind: TokenType, s: string, kind': TokenType, t: string)
    requires p < |src| && Reads(src, p, kind, s) && Reads(src, p, kind', t)
    ensures kind == kind' && s == t
  {
    hide Keyword, WordAt, WordKind, DecimalAt, HexAt, OperatorReads, Ends;
    if StartsWord(src[p]) {
      WordOnce(src, p, kind, s, kind', t);
    } else if StartsHex(src, p) {
      HexLongest(src, p, s, t);
      HexLongest(src, p, t, s);
      HexIsAt(src, p, s);
      HexIsAt(src, p, t);
    } else if StartsNumber(src, p) {
      DecimalLongest(src, p, s, t);
      DecimalLongest(src, p, t, s);
      DecimalIsAt(src, p, s);
      DecimalIsAt(src, p, t);
    } else if src[p] != '"' {
      OperatorOnce(src, p, kind, s, kind', t);
    }
  }

  lemma HexIsAt(src: string, p: nat, s: string)
    requires HexAt(src, p, s)
    ensures At(src, p, s)
  {
  }

  lemma DecimalIsAt(src: string, p: nat, s: string)
    requires DecimalAt(src, p, s)
    ensures At(src, p, s)
  {
  }

  /** The scanner reads the one token that stands at p. */
  lemma ScanExactly(src: string, p: nat, kind: TokenType, s: string)
    requires p < |src|
    ensures Scan(src, p).token == Some((kind, s)) <==> Reads(src, p, kind, s)
  {
    hide Scan, Reads;
    if Scan(src, p).token.Some? {
      ScanReads(src, p);
      if Reads(src, p, kind, s) {
        var (kind', s') := Scan(src, p).token.value;
        ReadsOnce(src, p, kind, s, kind', s');
      }
    } else if Reads(src, p, kind, s) {
      NothingReads(src, p, kind, s);
    }
  }

  lemma NothingReads(src: string, p: nat, kind: TokenType, s: string)
    requires p < |src| && Scan(src, p).token.None?
    ensures !Reads(src, p, kind, s)
  {
    hide Keyword, OperatorAt, OperatorType;
    LongestOperator(src, p);
    OperatorIsSpelled(src, p, kind, s);
  }

  /** Nothing is wrong with what the scanner reads exactly if a number has no second point, a string has a
      closing quote, and some token is there at all. */
  lemma ErrorsExactly(src: string, p: nat)
    requires p < |src|
    ensures
      Scan(src, p).ok <==>
        Scan(src, p).token.Some? && Sound(src, p, Scan(src, p).token.value.0, Scan(src, p).token.value.1)
  {
    hide Keyword, WordEnd, NumberEnd, StringEnd, HexEnd, OperatorAt, DecimalAt;
    if StartsNumber(src, p) && !StartsHex(src, p) {
      NumberReads(src, p);
    } else if src[p] == '"' {
      StringEndIs(src, p + 1, p + 1);
    } else if StartsWord(src[p]) {
      KeywordIsWord(src[p..WordEnd(src, p + 1)]);
    }
  }

  predicate Sound(src: string, p: nat, kind: TokenType, s: string)
    requires p < |src|
  {
    && (StartsNumber(src, p) && !StartsHex(src, p) ==> Peek(src, p + |s|) != '.' || Peek(src, p + |s| + 1) == '.')
    && (src[p] == '"' ==> Peek(src, p + 1 + |s|) == '"')
  }

  lemma TokenReads(src: string, p: nat)
    requires p < |src|
    ensures forall t :: t in TokensOf(src, p) ==> t.start == p && Reads(src, p, t.kind, t.value)
  {
    hide Scan, Reads;
    if Scan(src, p).token.Some? { ScanReads(src, p); }
  }

  /** Every token of a text is the one that stands at its place. */
  lemma {:induction false} TokensAreRead(src: string, p: nat, i: nat)
    requires p <= |src| && i < |Lex(src, p).0|
    ensures var t := Lex(src, p).0[i]; t.start < |src| && Reads(src, t.start, t.kind, t.value)
    decreases |src| - p
  {
    hide Scan, Reads, SkipEnd, TokensOf;
    var q := SkipEnd(src, p).0;
    if p < |src| && q < |src| {
      TokenReads(src, q);
      var here := TokensOf(src, q);
      if i < |here| {
        assert here[i] in here && Lex(src, p).0[i] == here[i];
      } else {
        TokensAreRead(src, Scan(src, q).next, i - |here|);
        assert Lex(src, p).0[i] == Lex(src, Scan(src, q).next).0[i - |here|];
      }
    }
  }
}
