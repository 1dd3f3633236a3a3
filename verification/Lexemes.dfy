// What the lexer computes, without positions and loops: the text is blanks and longest
// lexemes in alternation, and the token list is the only one that reads it that way.
module Lexemes {
  import opened Wrappers
  import opened Tokens
  import opened Lexing

  // ---------- blanks ----------

  // src[p..k] is a comment up to, but without, its line end.
  predicate CommentSpan(src: string, p: nat, k: nat) {
    p + 2 <= k <= |src| && CommentAt(src, p) && forall i :: p <= i < k ==> InComment(src[i])
  }

  // Only whitespace and comments; a comment reaches the line end, or the end of the text.
  ghost predicate BlankSpan(src: string, p: nat, q: nat)
    requires q <= |src|
    decreases |src| - p
  {
    p == q ||
    (p < q && IsSpace(src[p]) && BlankSpan(src, p + 1, q)) ||
    (p < q && exists k :: p < k <= q && CommentSpan(src, p, k) &&
                (if k == |src| then k == q else src[k] == '\n' && k < q && BlankSpan(src, k, q)))
  }

  lemma {:induction false} RunIs(src: string, p: nat, q: nat, f: char -> bool)
    requires p <= q <= |src| && (forall k :: p <= k < q ==> f(src[k])) && (q < |src| ==> !f(src[q]))
    ensures RunEnd(src, p, f) == q
    decreases q - p
  {
    if p < q {
      RunIs(src, p + 1, q, f);
    }
  }

  lemma {:induction false} SkipSpace(src: string, p: nat)
    requires p < |src| && IsSpace(src[p])
    ensures SkipBlank(src, p) == SkipBlank(src, p + 1)
  {
  }

  lemma {:induction false} SkipComment(src: string, p: nat, k: nat)
    requires CommentSpan(src, p, k) && (k < |src| ==> src[k] == '\n')
    ensures SkipBlank(src, p) == SkipBlank(src, k)
  {
    RunIs(src, p, k, InComment);
    RunIs(src, p, p, IsSpace);
  }

  // A blank that stops before something else is exactly what is skipped.
  lemma {:induction false} BlankIsSkipped(src: string, p: nat, q: nat)
    requires p <= q <= |src| && BlankSpan(src, p, q)
    requires q < |src| ==> !IsSpace(src[q]) && !CommentAt(src, q)
    ensures SkipBlank(src, p) == q
    decreases |src| - p
  {
    if p == q {
      RunIs(src, p, p, IsSpace);
    } else if IsSpace(src[p]) {
      SkipSpace(src, p);
      BlankIsSkipped(src, p + 1, q);
    } else {
      var k :| p < k <= q && CommentSpan(src, p, k) &&
        (if k == |src| then k == q else src[k] == '\n' && k < q && BlankSpan(src, k, q));
      SkipComment(src, p, k);
      if k == |src| {
        RunIs(src, k, k, IsSpace);
      } else {
        BlankIsSkipped(src, k, q);
      }
    }
  }

  predicate NoNul(src: string) {
    forall k :: 0 <= k < |src| ==> src[k] != NUL
  }

  lemma {:induction false} SkippedIsBlank(src: string, p: nat)
    requires p <= |src| && NoNul(src)
    ensures BlankSpan(src, p, SkipBlank(src, p))
    decreases |src| - p
  {
    if p < |src| && IsSpace(src[p]) {
      SkipSpace(src, p);
      SkippedIsBlank(src, p + 1);
    } else {
      RunIs(src, p, p, IsSpace);
      if CommentAt(src, p) {
        var k := RunEnd(src, p, InComment);
        assert k != p && k != p + 1;
        SkippedIsBlank(src, k);
        assert CommentSpan(src, p, k);
      }
    }
  }

  // ---------- longest lexemes ----------

  // t stands at p, is a lexeme of its kind, and no longer text from p on is a lexeme.
  ghost predicate LongestAt(src: string, p: nat, t: Token) {
    var q := p + |t.content|;
    q <= |src| && src[p..q] == t.content && KindOf(t.content) == Some(t.kind) &&
    forall r {:trigger src[p..r]} :: q < r <= |src| ==> KindOf(src[p..r]) == None
  }

  lemma {:induction false} LongestUnique(src: string, p: nat, t: Token, u: Token)
    requires LongestAt(src, p, t) && LongestAt(src, p, u)
    ensures t == u
  {
    var q, r := p + |t.content|, p + |u.content|;
    assert src[p..q] == t.content && src[p..r] == u.content;
  }

  // A lexeme starts neither with whitespace nor with a comment nor with '#' or NUL.
  lemma {:induction false} LexemeStart(t: string)
    requires KindOf(t).Some?
    ensures t != "" && !IsSpace(t[0]) && t[0] != '#' && t[0] != NUL && !CommentAt(t, 0)
  {
    if Decimal(t) {
      DecimalStart(t);
    }
  }

  lemma {:induction false} LongerThanWord(t: string, k: nat)
    requires 0 < k < |t| && IsAlpha(t[0]) && !IsAlnum(t[k])
    ensures KindOf(t) == None
  {
    if Decimal(t) {
      DecimalStart(t);
    }
  }

  lemma {:induction false} WordIsLongest(src: string, p: nat)
    requires p < |src| && IsAlpha(src[p])
    ensures TokenAt(src, p).Scanned? && LongestAt(src, p, TokenAt(src, p).token)
  {
    var q := RunEnd(src, p, IsAlnum);
    var w := src[p..q];
    assert w[0] == src[p];
    assert Word(w);
    forall r | q < r <= |src| ensures KindOf(src[p..r]) == None {
      var t := src[p..r];
      assert t[0] == src[p] && t[q - p] == src[q];
      LongerThanWord(t, q - p);
    }
  }

  lemma {:induction false} DecimalDot(t: string, a: nat)
    requires Decimal(t) && a < |t| && !IsDigit(t[a]) && forall i :: 0 <= i < a ==> IsDigit(t[i])
    ensures t[a] == '.' && forall i :: a < i < |t| ==> IsDigit(t[i])
    ensures a + 1 < |t|
  {
    var k: nat :| k < |t| && t[k] == '.' && Digits(t[..k]) && Digits(t[k + 1..]);
    forall i | 0 <= i < k ensures IsDigit(t[i]) {
      assert t[i] == t[..k][i];
    }
    assert k == a;
    forall i | a < i < |t| ensures IsDigit(t[i]) {
      assert t[i] == t[k + 1..][i - k - 1];
    }
  }

  lemma {:induction false} NumberLexeme(src: string, p: nat)
    requires p < |src| && IsDigit(src[p])
    ensures p < NumberEnd(src, p) && KindOf(src[p..NumberEnd(src, p)]) == Some(NUMBER)
  {
    var a, q := RunEnd(src, p, IsDigit), NumberEnd(src, p);
    var t := src[p..q];
    assert t[0] == src[p];
    if q == a {
      assert Digits(t);
    } else {
      var k := a - p;
      assert t[k] == '.' && t[..k] == src[p..a] && t[k + 1..] == src[a + 1..q];
      assert Digits(src[p..a]);
      assert Digits(src[a + 1..q]) by {
        assert src[a + 1..q][0] == src[a + 1];
      }
    }
  }

  lemma {:induction false} LongerThanNumber(t: string, n: nat)
    requires 0 < n < |t| && IsDigit(t[0]) && !IsDigit(t[n])
    requires !Decimal(t)
    ensures KindOf(t) == None
  {
    assert !Digits(t);
  }

  lemma {:induction false} DecimalInside(src: string, p: nat, r: nat, a: nat)
    requires p <= a < r <= |src| && Decimal(src[p..r]) && a == RunEnd(src, p, IsDigit)
    ensures a + 1 < r && src[a] == '.' && forall i :: a < i < r ==> IsDigit(src[i])
  {
    var t := src[p..r];
    forall i | p <= i < r ensures t[i - p] == src[i] {
    }
    DecimalDot(t, a - p);
    forall i | a < i < r ensures IsDigit(src[i]) {
      assert t[i - p] == src[i];
    }
  }

  lemma {:induction false} NumberIsLongest(src: string, p: nat)
    requires p < |src| && IsDigit(src[p])
    ensures TokenAt(src, p).Scanned? && LongestAt(src, p, TokenAt(src, p).token)
  {
    NumberLexeme(src, p);
    var a, q := RunEnd(src, p, IsDigit), NumberEnd(src, p);
    forall r | q < r <= |src| ensures KindOf(src[p..r]) == None {
      var t := src[p..r];
      assert t[0] == src[p] && t[a - p] == src[a] && t[q - p] == src[q];
      if Decimal(t) {
        DecimalInside(src, p, r, a);
      }
      LongerThanNumber(t, q - p);
    }
  }

  lemma {:induction false} SymbolIsLongest(src: string, p: nat)
    requires p < |src| && !IsAlnum(src[p]) && !IsSpace(src[p]) && src[p] != '#' && src[p] != NUL
    ensures TokenAt(src, p).Scanned? && LongestAt(src, p, TokenAt(src, p).token)
  {
    hide OneKind;
    var c, d := src[p], Peek(src, p + 1);
    forall r | p + 1 < r <= |src|
      ensures KindOf(src[p..r]) == if r == p + 2 && TwoKind(c, d) != UNKNOWN then Some(TwoKind(c, d)) else None
    {
      SymbolKind(src[p..r]);
    }
    var one := src[p..p + 1];
    assert one == [c];
    NoSymbolNumber(one);
  }

  lemma {:induction false} NoSymbolNumber(t: string)
    requires t != "" && !IsDigit(t[0])
    ensures !Digits(t) && !Decimal(t)
  {
    if Decimal(t) {
      DecimalStart(t);
    }
  }

  lemma {:induction false} SymbolKind(t: string)
    requires |t| >= 2 && !IsAlnum(t[0])
    ensures KindOf(t) == if |t| == 2 && TwoKind(t[0], t[1]) != UNKNOWN then Some(TwoKind(t[0], t[1])) else None
  {
    NoSymbolNumber(t);
  }

  predicate Plain(src: string) {
    forall k :: 0 <= k < |src| ==> src[k] != '#' && src[k] != NUL
  }

  // Every token the lexer takes is the longest lexeme at its place.
  lemma {:induction false} TokenIsLongest(src: string, p: nat)
    requires p < |src| && Plain(src) && !IsSpace(src[p])
    ensures TokenAt(src, p).Scanned? && LongestAt(src, p, TokenAt(src, p).token)
    ensures TokenAt(src, p).next == p + |TokenAt(src, p).token.content|
    ensures TokenAt(src, p).token.kind != END_OF_FILE
  {
    hide LongestAt, WordKind;
    if IsAlpha(src[p]) {
      WordIsLongest(src, p);
      WordsHaveKinds(src[p..RunEnd(src, p, IsAlnum)]);
    } else if IsDigit(src[p]) {
      NumberIsLongest(src, p);
    } else {
      SymbolIsLongest(src, p);
    }
  }

  lemma {:induction false} WordsHaveKinds(w: string)
    ensures WordKind(w) != END_OF_FILE
  {
  }

  // ---------- the whole text ----------

  // Token k starts at starts[k]; between tokens there are only blanks.
  ghost predicate LaidOut(src: string, p: nat, starts: seq<nat>, toks: seq<Token>)
    decreases |toks|
  {
    p <= |src| && |starts| == |toks| &&
    if toks == [] then BlankSpan(src, p, |src|)
    else
      p <= starts[0] < |src| && BlankSpan(src, p, starts[0]) && !CommentAt(src, starts[0]) &&
      LongestAt(src, starts[0], toks[0]) &&
      LaidOut(src, starts[0] + |toks[0].content|, starts[1..], toks[1..])
  }

  lemma {:induction false} LayFirst(src: string, p: nat, q: nat, t: Token, starts: seq<nat>, toks: seq<Token>)
    requires p <= q < |src| && BlankSpan(src, p, q) && !CommentAt(src, q) && LongestAt(src, q, t)
    requires LaidOut(src, q + |t.content|, starts, toks)
    ensures LaidOut(src, p, [q] + starts, [t] + toks)
  {
    hide BlankSpan, LongestAt;
    assert ([q] + starts)[1..] == starts && ([t] + toks)[1..] == toks;
  }

  lemma {:induction false} LexedIsLaidOut(src: string, p: nat) returns (starts: seq<nat>)
    requires p <= |src| && Plain(src)
    ensures TokensFrom(src, p).Some? && LaidOut(src, p, starts, TokensFrom(src, p).value)
    decreases |src| - p
  {
    hide TokenAt, LongestAt, SkipBlank, BlankSpan, KindOf;
    SkippedIsBlank(src, p);
    var q := SkipBlank(src, p);
    if q == |src| {
      starts := [];
    } else {
      TokenIsLongest(src, q);
      var n := TokenAt(src, q);
      var rest := LexedIsLaidOut(src, n.next);
      LayFirst(src, p, q, n.token, rest, TokensFrom(src, n.next).value);
      starts := [q] + rest;
    }
  }

  lemma {:induction false} LaidOutIsLexed(src: string, p: nat, starts: seq<nat>, toks: seq<Token>)
    requires Plain(src) && LaidOut(src, p, starts, toks)
    ensures TokensFrom(src, p) == Some(toks)
    decreases |toks|
  {
    hide TokenAt, KindOf, SkipBlank, BlankSpan;
    if toks == [] {
      BlankIsSkipped(src, p, |src|);
    } else {
      var q, t := starts[0], toks[0];
      LexemeStart(t.content);
      assert src[q] == t.content[0];
      BlankIsSkipped(src, p, q);
      TokenIsLongest(src, q);
      LongestUnique(src, q, t, TokenAt(src, q).token);
      hide LongestAt;
      LaidOutIsLexed(src, q + |t.content|, starts[1..], toks[1..]);
      assert toks == [t] + toks[1..];
    }
  }

  // The lexer's result is exactly the reading of the text as blanks and longest lexemes.
  lemma {:induction false} LexerMeaning(src: string, toks: seq<Token>)
    requires Plain(src)
    ensures Tokenize(src) == Some(toks) <==> exists starts :: LaidOut(src, 0, starts, toks)
  {
    hide LaidOut, TokensFrom;
    var starts := LexedIsLaidOut(src, 0);
    if s :| LaidOut(src, 0, s, toks) {
      LaidOutIsLexed(src, 0, s, toks);
    }
  }

  // So a token of a symbol's or keyword's kind has its spelling as content, an identifier is a word
  // and an unknown token a character that are no spelling, and a number is digits.
  lemma {:induction false} TokensSpelled(src: string, toks: seq<Token>, i: nat)
    requires Plain(src) && Tokenize(src) == Some(toks) && i < |toks|
    ensures Spelled(toks[i])
  {
    hide LaidOut, TokensFrom, KindOf;
    LexerMeaning(src, toks);
    var starts :| LaidOut(src, 0, starts, toks);
    LaidOutAt(src, 0, starts, toks, i);
    KindSpelled(toks[i]);
  }

  ghost predicate Spelled(t: Token) {
    match t.kind
    case NUMBER => Digits(t.content) || Decimal(t.content)
    case IDENT => Word(t.content) && forall k :: Spelling(k) != t.content
    case UNKNOWN => |t.content| == 1 && forall k :: Spelling(k) != t.content
    case k => t.content == Spelling(k) != ""
  }

  lemma {:induction false} LaidOutAt(src: string, p: nat, starts: seq<nat>, toks: seq<Token>, i: nat)
    requires LaidOut(src, p, starts, toks) && i < |toks|
    ensures LongestAt(src, starts[i], toks[i])
    decreases |toks|
  {
    hide LongestAt, BlankSpan;
    if i > 0 {
      LaidOutAt(src, starts[0] + |toks[0].content|, starts[1..], toks[1..], i - 1);
    }
  }

  lemma {:induction false} KindSpelled(t: Token)
    requires KindOf(t.content) == Some(t.kind)
    ensures Spelled(t)
  {
    hide KindOf, Digits, Decimal, Spelling;
    OnlyNumbers(t.content);
    NoSpelling();
    if t.kind == IDENT || t.kind == UNKNOWN {
      KindShape(t);
      forall k ensures Spelling(k) != t.content {
        if Spelling(k) == t.content {
          SpellingIsLexeme(k);
        }
      }
    } else if t.kind != NUMBER {
      OnlySpelling(t.content, t.kind);
    }
  }

  lemma {:induction false} KindShape(t: Token)
    requires KindOf(t.content) == Some(t.kind)
    ensures t.kind == IDENT ==> Word(t.content)
    ensures t.kind == UNKNOWN ==> |t.content| == 1
  {
  }

  lemma {:induction false} NoSpelling()
    ensures Spelling(IDENT) == Spelling(UNKNOWN) == Spelling(NUMBER) == ""
  {
  }

  // Blanks and token contents, put back in order.
  function Rebuild(src: string, p: nat, starts: seq<nat>, toks: seq<Token>): string
    requires |starts| == |toks|
    decreases |toks|
  {
    if toks == [] then (if p <= |src| then src[p..] else "")
    else (if p <= starts[0] <= |src| then src[p..starts[0]] else "") + toks[0].content
         + Rebuild(src, starts[0] + |toks[0].content|, starts[1..], toks[1..])
  }

  // Nothing is lost: the pieces give the text back.
  lemma {:induction false} LexingIsLossless(src: string, p: nat, starts: seq<nat>, toks: seq<Token>)
    requires LaidOut(src, p, starts, toks)
    ensures p <= |src| && Rebuild(src, p, starts, toks) == src[p..]
    decreases |toks|
  {
    hide BlankSpan, KindOf;
    if toks != [] {
      var q := starts[0];
      var r := q + |toks[0].content|;
      LexingIsLossless(src, r, starts[1..], toks[1..]);
      assert src[p..q] + src[q..r] + src[r..] == src[p..];
    }
  }

  // ---------- rendering ----------

  // Contents with a space after each.
  function Render(toks: seq<Token>): string {
    if toks == [] then "" else toks[0].content + " " + Render(toks[1..])
  }

  ghost predicate Lexable(toks: seq<Token>) {
    forall k :: 0 <= k < |toks| ==> KindOf(toks[k].content) == Some(toks[k].kind)
  }

  lemma {:induction false} NoInnerSpace(t: string, k: nat)
    requires KindOf(t).Some? && k < |t|
    ensures !IsSpace(t[k]) && t[k] != '#' && t[k] != NUL
  {
    if Decimal(t) && !Word(t) && !Digits(t) {
      var i: nat :| i < |t| && t[i] == '.' && Digits(t[..i]) && Digits(t[i + 1..]);
      if k < i {
        assert t[..i][k] == t[k];
      } else if k > i {
        assert t[i + 1..][k - i - 1] == t[k];
      }
    }
  }

  // A lexeme with a space after it is the longest one.
  lemma {:induction false} SpacedIsLongest(src: string, p: nat, t: Token)
    requires p + |t.content| < |src| && src[p..p + |t.content|] == t.content && KindOf(t.content) == Some(t.kind)
    requires src[p + |t.content|] == ' '
    ensures LongestAt(src, p, t)
  {
    hide KindOf;
    var q := p + |t.content|;
    forall r | q < r <= |src| ensures KindOf(src[p..r]) == None {
      var u := src[p..r];
      assert u[q - p] == ' ';
      if KindOf(u).Some? {
        NoInnerSpace(u, q - p);
      }
    }
  }

  lemma {:induction false} RenderedIsPlain(toks: seq<Token>)
    requires Lexable(toks)
    ensures Plain(Render(toks))
  {
    hide KindOf;
    if toks != [] {
      var t := toks[0].content;
      forall k | 0 <= k < |t| ensures t[k] != '#' && t[k] != NUL {
        NoInnerSpace(t, k);
      }
      RenderedIsPlain(toks[1..]);
    }
  }

  lemma {:induction false} LayNothing(src: string, p: nat)
    requires p <= |src| && BlankSpan(src, p, |src|)
    ensures LaidOut(src, p, [], [])
  {
  }

  // After the blank from p to q, src is the rendering of toks.
  lemma {:induction false} RenderedIsLaidOut(src: string, p: nat, q: nat, toks: seq<Token>) returns (starts: seq<nat>)
    requires Lexable(toks) && p <= q <= |src| && BlankSpan(src, p, q) && src[q..] == Render(toks)
    ensures LaidOut(src, p, starts, toks)
    decreases |toks|
  {
    hide KindOf, LongestAt, BlankSpan, LaidOut;
    if toks == [] {
      starts := [];
      assert q == |src| by {
        assert |src[q..]| == 0;
      }
      LayNothing(src, p);
    } else {
      var t, rest := toks[0], toks[1..];
      var r := RenderedToken(src, q, t, Render(rest));
      SpacedIsLongest(src, q, t);
      var more := RenderedIsLaidOut(src, r, r + 1, rest);
      LayFirst(src, p, q, t, more, rest);
      starts := [q] + more;
      assert toks == [t] + rest;
    }
  }

  lemma {:induction false} CommentInside(src: string, q: nat, t: string, rest: string)
    requires q <= |src| && src[q..] == t + " " + rest && CommentAt(src, q) && t != ""
    ensures CommentAt(t, 0)
  {
    var all := t + " " + rest;
    assert all[0] == src[q] && all[1] == src[q + 1];
    assert all[|t|] == ' ';
  }

  lemma {:induction false} RenderedToken(src: string, q: nat, t: Token, rest: string) returns (r: nat)
    requires q <= |src| && src[q..] == t.content + " " + rest && KindOf(t.content).Some?
    ensures r == q + |t.content| < |src| && src[q..r] == t.content && src[r] == ' '
    ensures src[r + 1..] == rest && BlankSpan(src, r, r + 1) && !CommentAt(src, q)
  {
    hide KindOf;
    r := q + |t.content|;
    var all := src[q..];
    assert all[|t.content|] == ' ';
    assert src[q..r] == all[..|t.content|];
    assert src[r + 1..] == all[|t.content| + 1..];
    LexemeStart(t.content);
    if CommentAt(src, q) {
      CommentInside(src, q, t.content, rest);
    }
  }

  // Any tokens, rendered with spaces, are lexed back.
  lemma {:induction false} RenderRoundTrip(toks: seq<Token>)
    requires Lexable(toks)
    ensures Tokenize(Render(toks)) == Some(toks)
  {
    hide KindOf, LaidOut;
    RenderedIsPlain(toks);
    var src := Render(toks);
    var starts := RenderedIsLaidOut(src, 0, 0, toks);
    LaidOutIsLexed(src, 0, starts, toks);
  }
}
