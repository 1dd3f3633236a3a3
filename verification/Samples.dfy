// How particular source texts are read: which operators bind tighter, what each statement looks
// like, what is skipped and what is refused, and the characters that make up the tokens
// (src/compiler/parser.cpp, src/compiler/lexer.cpp).
module Samples {
  import opened Wrappers
  import opened Tokens
  import opened Lexing
  import opened Lexemes
  import opened Ast
  import opened Numerals
  import opened Parsing

  // ---------- operators ----------

  // From the loosest to the tightest; 0 for what is no binary operator.
  function Rank(k: TokenType): nat {
    if k in {DOUBLE_AND, DOUBLE_VBAR} then 1
    else if k in {EQEQ, NOT_EQ, GREATER, LOWER} then 2
    else if k in {PLUS, MINUS} then 3
    else if k in {STAR, SLASH} then 4
    else 0
  }

  lemma {:induction false} RankIsLevel(k: TokenType)
    ensures OpLevel(k) == if Rank(k) == 0 then NO_OPERATOR else Rank(k) - 1
  {
  }

  // A name that is neither called nor assigned to.
  predicate NameAt(ts: seq<Token>, p: nat) {
    At(ts, p, IDENT) && KindAt(ts, p + 1) != COLON && KindAt(ts, p + 1) != EQ
  }

  function Name(ts: seq<Token>, p: nat): Expr
    requires p < |ts|
  {
    Identifier(ts[p].content)
  }

  // No operator of this level or a tighter one.
  predicate Stops(ts: seq<Token>, p: nat, level: nat) {
    OpLevel(KindAt(ts, p)) < level || OpLevel(KindAt(ts, p)) == NO_OPERATOR
  }

  lemma {:induction false} NameAlone(level: nat, ts: seq<Token>, p: nat)
    requires level <= PRIMARY && NameAt(ts, p) && Stops(ts, p + 1, level)
    ensures ParseAt(level, ts, p) == Done(Name(ts, p), p + 1)
    decreases PRIMARY - level
  {
    hide ParseAt, ParseLoop, OpLevel;
    if level == PRIMARY {
      PrimaryStep(ts, p);
    } else if level == UNARY {
      UnaryStep(ts, p);
      NameAlone(PRIMARY, ts, p);
    } else {
      NameAlone(level + 1, ts, p);
      AtStep(level, level + 1, ts, p);
      LoopEnd(level, Name(ts, p), ts, p + 1);
    }
  }

  lemma {:induction false} OnePair(level: nat, ts: seq<Token>, p: nat)
    requires level < UNARY && NameAt(ts, p) && level <= OpLevel(KindAt(ts, p + 1)) < UNARY
    requires NameAt(ts, p + 2) && Stops(ts, p + 3, level)
    ensures ParseAt(level, ts, p) == Done(Binary(ts[p + 1].kind, Name(ts, p), Name(ts, p + 2)), p + 3)
    decreases UNARY - level
  {
    hide ParseAt, ParseLoop, OpLevel;
    AtStep(level, level + 1, ts, p);
    var both := Binary(ts[p + 1].kind, Name(ts, p), Name(ts, p + 2));
    if level == OpLevel(KindAt(ts, p + 1)) {
      NameAlone(level + 1, ts, p);
      NameAlone(level + 1, ts, p + 2);
      LoopStep(level, level + 1, Name(ts, p), ts, p + 1);
    } else {
      OnePair(level + 1, ts, p);
    }
    LoopEnd(level, both, ts, p + 3);
  }

  predicate ThreeNames(ts: seq<Token>) {
    |ts| == 5 && NameAt(ts, 0) && NameAt(ts, 2) && At(ts, 4, IDENT)
  }

  lemma {:induction false} LeftFirst(level: nat, ts: seq<Token>)
    requires ThreeNames(ts) && level <= OpLevel(ts[3].kind) <= OpLevel(ts[1].kind) < UNARY
    ensures ParseAt(level, ts, 0) ==
            Done(Binary(ts[3].kind, Binary(ts[1].kind, Name(ts, 0), Name(ts, 2)), Name(ts, 4)), 5)
    decreases UNARY - level
  {
    hide ParseAt, ParseLoop, OpLevel;
    var ab := Binary(ts[1].kind, Name(ts, 0), Name(ts, 2));
    var abc := Binary(ts[3].kind, ab, Name(ts, 4));
    EndStops();
    AtStep(level, level + 1, ts, 0);
    if level < OpLevel(ts[3].kind) {
      LeftFirst(level + 1, ts);
    } else {
      if level < OpLevel(ts[1].kind) {
        OnePair(level + 1, ts, 0);
      } else {
        NameAlone(level + 1, ts, 0);
        NameAlone(level + 1, ts, 2);
        LoopStep(level, level + 1, Name(ts, 0), ts, 1);
      }
      NameAlone(level + 1, ts, 4);
      LoopStep(level, level + 1, ab, ts, 3);
    }
    LoopEnd(level, abc, ts, 5);
  }

  lemma {:induction false} RightFirst(level: nat, ts: seq<Token>)
    requires ThreeNames(ts) && level <= OpLevel(ts[1].kind) < OpLevel(ts[3].kind) < UNARY
    ensures ParseAt(level, ts, 0) ==
            Done(Binary(ts[1].kind, Name(ts, 0), Binary(ts[3].kind, Name(ts, 2), Name(ts, 4))), 5)
    decreases UNARY - level
  {
    hide ParseAt, ParseLoop, OpLevel;
    var bc := Binary(ts[3].kind, Name(ts, 2), Name(ts, 4));
    EndStops();
    AtStep(level, level + 1, ts, 0);
    if level < OpLevel(ts[1].kind) {
      RightFirst(level + 1, ts);
    } else {
      NameAlone(level + 1, ts, 0);
      OnePair(level + 1, ts, 2);
      LoopStep(level, level + 1, Name(ts, 0), ts, 1);
    }
    LoopEnd(level, Binary(ts[1].kind, Name(ts, 0), bc), ts, 5);
  }

  lemma {:induction false} EndStops()
    ensures OpLevel(END_OF_FILE) == NO_OPERATOR
  {
  }

  // Three names and what stands between them: the tighter operator takes its operands first, of two
  // equal ones the left; at what is no operator the expression ends.
  lemma {:induction false} Precedence(ts: seq<Token>)
    requires ThreeNames(ts)
    ensures var a, o, b, q, c := Name(ts, 0), ts[1].kind, Name(ts, 2), ts[3].kind, Name(ts, 4);
            ParseAt(LOGICAL, ts, 0) ==
              if Rank(o) == 0 then Done(a, 1)
              else if Rank(q) == 0 then Done(Binary(o, a, b), 3)
              else if Rank(o) >= Rank(q) then Done(Binary(q, Binary(o, a, b), c), 5)
              else Done(Binary(o, a, Binary(q, b, c)), 5)
  {
    hide ParseAt, OpLevel, Rank;
    RankIsLevel(ts[1].kind);
    RankIsLevel(ts[3].kind);
    RankBound(ts[1].kind);
    RankBound(ts[3].kind);
    if Rank(ts[1].kind) == 0 {
      NameAlone(LOGICAL, ts, 0);
    } else if Rank(ts[3].kind) == 0 {
      OnePair(LOGICAL, ts, 0);
    } else if Rank(ts[1].kind) >= Rank(ts[3].kind) {
      LeftFirst(LOGICAL, ts);
    } else {
      RightFirst(LOGICAL, ts);
    }
  }

  lemma {:induction false} RankBound(k: TokenType)
    ensures Rank(k) <= 4
  {
  }

  // Before a name: minus and not are unary operators, a name, a number or a bracket begin another
  // expression, anything else is refused.
  lemma {:induction false} Prefixes(level: nat, ts: seq<Token>)
    requires level <= UNARY && |ts| == 2 && ts[1].kind == IDENT
    ensures ts[0].kind == MINUS || ts[0].kind == NOT ==>
              ParseAt(level, ts, 0) == Done(Unary(ts[0].kind, Name(ts, 1)), 2)
    ensures ts[0].kind !in {MINUS, NOT, IDENT, NUMBER, L_PAREN} ==> ParseAt(level, ts, 0) == Failed(UnexpectedToken)
    decreases UNARY - level
  {
    hide ParseAt, ParseLoop, OpLevel;
    EndStops();
    if level == UNARY {
      UnaryStep(ts, 0);
      PrimaryStep(ts, 0);
      NameAlone(UNARY, ts, 1);
    } else {
      Prefixes(level + 1, ts);
      AtStep(level, level + 1, ts, 0);
      LoopEnd(level, Unary(ts[0].kind, Name(ts, 1)), ts, 2);
    }
  }

  // ---------- statements ----------

  // A name before something that neither extends it nor is part of it.
  lemma {:induction false} NameExpr(ts: seq<Token>, p: nat)
    requires NameAt(ts, p) && OpLevel(KindAt(ts, p + 1)) == NO_OPERATOR
    ensures ParseAt(LOGICAL, ts, p) == ParseAt(PRIMARY, ts, p) == Done(Name(ts, p), p + 1)
  {
    hide ParseAt;
    NameAlone(LOGICAL, ts, p);
    PrimaryStep(ts, p);
  }

  // Whatever is none of the four tokens that start a statement is skipped.
  lemma {:induction false} Skips(program: seq<Stmt>, ts: seq<Token>, p: nat)
    requires p < |ts| && ts[p].kind !in {VAR, L_CURL_BRKT, IF, IDENT}
    ensures ParseFrom(program, ts, p) == ParseFrom(program, ts, p + 1)
    ensures ts[p].kind != R_CURL_BRKT && ts[p].kind != END_OF_FILE ==>
              ParseBody(program, ts, p) == ParseBody(program, ts, p + 1)
  {
    hide ParseStmt;
  }

  lemma {:induction false} Takes(program: seq<Stmt>, ts: seq<Token>, p: nat, s: Stmt, q: nat)
    requires p < |ts| && StartsStmt(ts[p].kind) && ParseStmt(ts, p) == Done(s, q)
    ensures q <= |ts| && ParseFrom(program, ts, p) == ParseFrom(program + [s], ts, q)
    ensures ParseBody(program, ts, p) == ParseBody(program + [s], ts, q)
  {
    hide ParseStmt;
    BodyStep(program, ts, p);
  }

  lemma {:induction false} NameStmt(ts: seq<Token>, p: nat)
    requires NameAt(ts, p)
    ensures ParseStmt(ts, p) == Done(ExprStmt(Name(ts, p)), p + 1)
  {
    hide ParseAt, ParseStmt;
    StmtStep(ts, p);
    PrimaryStep(ts, p);
  }

  lemma {:induction false} Ends(program: seq<Stmt>, ts: seq<Token>)
    ensures ParseFrom(program, ts, |ts|) == Done(program, |ts|)
  {
  }

  // var x = a  and var x -> any = a, before what ends an expression
  lemma {:induction false} Declares(ts: seq<Token>, p: nat)
    requires At(ts, p, VAR) && At(ts, p + 1, IDENT)
    ensures At(ts, p + 2, EQ) && NameAt(ts, p + 3) && Rank(KindAt(ts, p + 4)) == 0 ==>
              ParseStmt(ts, p) == Done(VarDecl(ts[p + 1].content, Name(ts, p + 3)), p + 4)
    ensures At(ts, p + 2, ARR_RIGHT) && At(ts, p + 4, EQ) && NameAt(ts, p + 5) && Rank(KindAt(ts, p + 6)) == 0 ==>
              ParseStmt(ts, p) == Done(VarDecl(ts[p + 1].content, Name(ts, p + 5)), p + 6)
  {
    hide ParseAt, ParseStmt, OpLevel, Rank;
    StmtStep(ts, p);
    if At(ts, p + 2, EQ) && NameAt(ts, p + 3) && Rank(KindAt(ts, p + 4)) == 0 {
      RankIsLevel(KindAt(ts, p + 4));
      NameExpr(ts, p + 3);
    }
    if At(ts, p + 2, ARR_RIGHT) && NameAt(ts, p + 5) && Rank(KindAt(ts, p + 6)) == 0 {
      RankIsLevel(KindAt(ts, p + 6));
      NameExpr(ts, p + 5);
    }
  }

  // var x = a & b: the declaration ends before the token that is none, which is skipped.
  lemma {:induction false} LoneAmpersand(ts: seq<Token>)
    requires |ts| == 6 && At(ts, 0, VAR) && At(ts, 1, IDENT) && At(ts, 2, EQ) && At(ts, 3, IDENT)
    requires At(ts, 4, UNKNOWN) && At(ts, 5, IDENT)
    ensures ParseProgram(ts) == Done([VarDecl(ts[1].content, Name(ts, 3)), ExprStmt(Name(ts, 5))], 6)
  {
    hide ParseStmt, ParseFrom, ParseBody, ParseAt, OpLevel;
    Declares(ts, 0);
    NameStmt(ts, 5);
    var first, second := VarDecl(ts[1].content, Name(ts, 3)), ExprStmt(Name(ts, 5));
    Takes([], ts, 0, first, 4);
    Skips([first], ts, 4);
    Takes([first], ts, 5, second, 6);
    Ends([first, second], ts);
    assert [] + [first] == [first] && [first] + [second] == [first, second];
  }

  // { b }
  lemma {:induction false} BlockOfOne(ts: seq<Token>, p: nat)
    requires At(ts, p, L_CURL_BRKT) && NameAt(ts, p + 1) && At(ts, p + 2, R_CURL_BRKT)
    ensures ParseBlock(ts, p) == Done([ExprStmt(Name(ts, p + 1))], p + 3)
  {
    hide ParseStmt, ParseBody, ParseAt, ParseFrom;
    var b := ExprStmt(Name(ts, p + 1));
    NameStmt(ts, p + 1);
    Takes([], ts, p + 1, b, p + 2);
    BodyStep([b], ts, p + 2);
    assert [] + [b] == [b];
  }

  // if (a) { b } with or without else { c }
  lemma {:induction false} Ifs(ts: seq<Token>, p: nat)
    requires At(ts, p, IF) && At(ts, p + 1, L_PAREN) && NameAt(ts, p + 2) && At(ts, p + 3, R_PAREN)
    requires At(ts, p + 4, L_CURL_BRKT) && NameAt(ts, p + 5) && At(ts, p + 6, R_CURL_BRKT)
    ensures KindAt(ts, p + 7) != ELSE ==>
              ParseStmt(ts, p) == Done(IfElse(Name(ts, p + 2), [ExprStmt(Name(ts, p + 5))], NoElse), p + 7)
    ensures At(ts, p + 7, ELSE) && At(ts, p + 8, L_CURL_BRKT) && NameAt(ts, p + 9) && At(ts, p + 10, R_CURL_BRKT) ==>
              ParseStmt(ts, p) ==
                Done(IfElse(Name(ts, p + 2), [ExprStmt(Name(ts, p + 5))], Else([ExprStmt(Name(ts, p + 9))])), p + 11)
  {
    hide ParseStmt, ParseBlock, ParseAt, ParseIf, OpLevel;
    RankIsLevel(R_PAREN);
    StmtStep(ts, p);
    IfStep(ts, p);
    NameExpr(ts, p + 2);
    BlockOfOne(ts, p + 4);
    if At(ts, p + 7, ELSE) && At(ts, p + 8, L_CURL_BRKT) && NameAt(ts, p + 9) && At(ts, p + 10, R_CURL_BRKT) {
      BlockOfOne(ts, p + 8);
    }
  }

  // a;  and a, b;  as arguments
  lemma {:induction false} Arguments(ts: seq<Token>, p: nat)
    requires NameAt(ts, p)
    ensures At(ts, p + 1, SEMICOLON) ==> ParseArgs([], ts, p) == Done([Name(ts, p)], p + 2)
    ensures At(ts, p + 1, COMMA) && NameAt(ts, p + 2) && At(ts, p + 3, SEMICOLON) ==>
              ParseArgs([], ts, p) == Done([Name(ts, p), Name(ts, p + 2)], p + 4)
    ensures Rank(KindAt(ts, p + 1)) == 0 && KindAt(ts, p + 1) !in {COMMA, SEMICOLON} ==>
              ParseArgs([], ts, p) == Failed(ExpectedSeparator)
  {
    hide ParseAt, ParseArgs, OpLevel, Rank;
    var a := Name(ts, p);
    RankIsLevel(KindAt(ts, p + 1));
    SeparatorsRank();
    ArgsStep([], ts, p);
    assert [] + [a] == [a];
    if Rank(KindAt(ts, p + 1)) == 0 {
      NameExpr(ts, p);
    }
    if At(ts, p + 1, SEMICOLON) {
      ArgsStep([a], ts, p + 1);
    } else if At(ts, p + 1, COMMA) && NameAt(ts, p + 2) && At(ts, p + 3, SEMICOLON) {
      RankIsLevel(SEMICOLON);
      NameExpr(ts, p + 2);
      ArgsStep([a], ts, p + 2);
      assert [a] + [Name(ts, p + 2)] == [a, Name(ts, p + 2)];
      ArgsStep([a, Name(ts, p + 2)], ts, p + 3);
    }
  }

  // f:;  and f: a;  and f: a, b;
  lemma {:induction false} Calls(ts: seq<Token>, p: nat)
    requires At(ts, p, IDENT) && At(ts, p + 1, COLON)
    ensures At(ts, p + 2, SEMICOLON) ==> ParseAt(PRIMARY, ts, p) == Done(FuncCall(ts[p].content, []), p + 3)
    ensures NameAt(ts, p + 2) && At(ts, p + 3, SEMICOLON) ==>
              ParseAt(PRIMARY, ts, p) == Done(FuncCall(ts[p].content, [Name(ts, p + 2)]), p + 4)
    ensures NameAt(ts, p + 2) && At(ts, p + 3, COMMA) && NameAt(ts, p + 4) && At(ts, p + 5, SEMICOLON) ==>
              ParseAt(PRIMARY, ts, p) == Done(FuncCall(ts[p].content, [Name(ts, p + 2), Name(ts, p + 4)]), p + 6)
    ensures NameAt(ts, p + 2) && Rank(KindAt(ts, p + 3)) == 0 && KindAt(ts, p + 3) !in {COMMA, SEMICOLON} ==>
              ParseAt(PRIMARY, ts, p) == Failed(ExpectedSeparator)
  {
    hide ParseAt, ParseArgs, OpLevel, Rank;
    PrimaryStep(ts, p);
    if NameAt(ts, p + 2) {
      Arguments(ts, p + 2);
    } else {
      ArgsStep([], ts, p + 2);
    }
  }

  lemma {:induction false} SeparatorsRank()
    ensures Rank(SEMICOLON) == Rank(COMMA) == Rank(R_PAREN) == 0
  {
  }

  // x = a  and (a)
  lemma {:induction false} AssignsAndBrackets(ts: seq<Token>, p: nat)
    ensures At(ts, p, IDENT) && At(ts, p + 1, EQ) && NameAt(ts, p + 2) && Rank(KindAt(ts, p + 3)) == 0 ==>
              ParseAt(PRIMARY, ts, p) == Done(Assign(ts[p].content, Name(ts, p + 2)), p + 3)
    ensures At(ts, p, L_PAREN) && NameAt(ts, p + 1) && Rank(KindAt(ts, p + 2)) == 0 ==>
              ParseAt(PRIMARY, ts, p) ==
                if p + 2 == |ts| then Failed(UnexpectedEnd)
                else if ts[p + 2].kind != R_PAREN then Failed(OtherExpected)
                else Done(Name(ts, p + 1), p + 3)
  {
    hide ParseAt, OpLevel, Rank;
    if At(ts, p, IDENT) && At(ts, p + 1, EQ) && NameAt(ts, p + 2) && Rank(KindAt(ts, p + 3)) == 0 {
      PrimaryStep(ts, p);
      RankIsLevel(KindAt(ts, p + 3));
      NameExpr(ts, p + 2);
    } else if At(ts, p, L_PAREN) && NameAt(ts, p + 1) && Rank(KindAt(ts, p + 2)) == 0 {
      PrimaryStep(ts, p);
      RankIsLevel(KindAt(ts, p + 2));
      NameExpr(ts, p + 1);
    }
  }

  // A block that is never closed, and a declaration without its parts.
  lemma {:induction false} Refuses(ts: seq<Token>)
    requires |ts| > 0
    ensures At(ts, 0, L_CURL_BRKT) && |ts| == 1 ==> ParseProgram(ts) == Failed(UnclosedBlock)
    ensures At(ts, 0, VAR) && |ts| == 1 ==> ParseProgram(ts) == Failed(UnexpectedEnd)
    ensures At(ts, 0, VAR) && |ts| > 1 && ts[1].kind != IDENT ==> ParseProgram(ts) == Failed(OtherExpected)
    ensures At(ts, 0, VAR) && At(ts, 1, IDENT) && |ts| == 2 ==> ParseProgram(ts) == Failed(UnexpectedEnd)
    ensures At(ts, 0, VAR) && At(ts, 1, IDENT) && |ts| > 2 && ts[2].kind !in {EQ, ARR_RIGHT} ==>
              ParseProgram(ts) == Failed(OtherExpected)
    ensures At(ts, 0, IF) && |ts| > 1 && ts[1].kind != L_PAREN ==> ParseProgram(ts) == Failed(OtherExpected)
  {
    hide ParseStmt, ParseAt;
    StmtStep(ts, 0);
    BodyStep([], ts, 1);
    hide ParseBody;
    RefusesFirst(ts);
  }

  lemma {:induction false} RefusesFirst(ts: seq<Token>)
    requires |ts| > 0
    ensures StartsStmt(ts[0].kind) && ParseStmt(ts, 0).Failed? ==> ParseProgram(ts) == Failed(ParseStmt(ts, 0).error)
  {
    hide ParseStmt;
  }

  // ---------- numbers ----------

  // The integer part is read, in 64 bits; the fraction is dropped.
  lemma {:induction false} StollReads(whole: string, rest: string)
    requires Digits(whole) && (rest == "" || !IsDigit(rest[0]))
    ensures Stoll(whole + rest) == if Value(whole) < 0x8000_0000_0000_0000 then Some(Value(whole)) else None
  {
    hide Value, RunEnd;
    var t := whole + rest;
    RunIs(t, 0, 0, IsSpace);
    RunIs(t, 0, |whole|, IsDigit);
    assert t[0..|whole|] == whole;
  }

  lemma {:induction false} NumberExpr(ts: seq<Token>, p: nat, whole: string, fraction: string)
    requires At(ts, p, NUMBER) && Digits(whole)
    requires ts[p].content == whole || ts[p].content == whole + ("." + fraction)
    ensures ParseAt(PRIMARY, ts, p) ==
            if Value(whole) < 0x8000_0000_0000_0000 then Done(IntLiteral(Value(whole)), p + 1) else Failed(BadNumber)
  {
    hide ParseAt, Stoll, Value;
    PrimaryStep(ts, p);
    StollReads(whole, "");
    StollReads(whole, "." + fraction);
    assert whole + "" == whole;
  }

  // Digits count in tens.
  lemma {:induction false} ValueDigits(t: string, c: char)
    requires Digits(t) && IsDigit(c)
    ensures Value(t + [c]) == 10 * Value(t) + (c as int - 48) && Value([c]) == c as int - 48
  {
    assert (t + [c])[..|t|] == t && [c][..0] == "";
  }

  // ---------- texts ----------

  // The token from q to r, nothing before it, and the tokens after it.
  lemma {:induction false} LexOne(src: string, q: nat, r: nat, k: TokenType)
    requires q < r <= |src| && !IsSpace(src[q]) && !CommentAt(src, q) && k != END_OF_FILE
    requires TokenAt(src, q) == Scanned(Token(k, src[q..r]), r)
    ensures TokensFrom(src, q) == After([Token(k, src[q..r])], TokensFrom(src, r))
  {
    RunIs(src, q, q, IsSpace);
    hide TokenAt;
  }

  lemma {:induction false} LexSpace(src: string, q: nat)
    requires q < |src| && IsSpace(src[q])
    ensures TokensFrom(src, q) == TokensFrom(src, q + 1)
  {
    SkipSpace(src, q);
    hide TokenAt, SkipBlank;
  }

  lemma {:induction false} LexEnd(src: string)
    ensures TokensFrom(src, |src|) == Some([])
  {
    RunIs(src, |src|, |src|, IsSpace);
    hide TokenAt;
  }

  lemma {:induction false} LexWord(src: string, q: nat, r: nat)
    requires q < r <= |src| && IsAlpha(src[q]) && (forall k :: q <= k < r ==> IsAlnum(src[k]))
    requires r < |src| ==> !IsAlnum(src[r])
    ensures TokensFrom(src, q) == After([Token(WordKind(src[q..r]), src[q..r])], TokensFrom(src, r))
  {
    hide WordKind, TokensFrom;
    RunIs(src, q, r, IsAlnum);
    WordsHaveKinds(src[q..r]);
    LexOne(src, q, r, WordKind(src[q..r]));
  }

  lemma {:induction false} LexNumber(src: string, q: nat, r: nat)
    requires q < r <= |src| && (forall k :: q <= k < r ==> IsDigit(src[k])) && (r < |src| ==> !IsDigit(src[r]))
    requires r + 1 < |src| && src[r] == '.' ==> !IsDigit(src[r + 1])
    ensures TokensFrom(src, q) == After([Token(NUMBER, src[q..r])], TokensFrom(src, r))
  {
    hide TokensFrom;
    RunIs(src, q, r, IsDigit);
    LexOne(src, q, r, NUMBER);
  }

  lemma {:induction false} LexDecimal(src: string, q: nat, m: nat, r: nat)
    requires q < m < m + 1 < r <= |src| && (forall k :: q <= k < r && k != m ==> IsDigit(src[k])) && src[m] == '.'
    requires r < |src| ==> !IsDigit(src[r])
    ensures TokensFrom(src, q) == After([Token(NUMBER, src[q..r])], TokensFrom(src, r))
  {
    hide TokensFrom;
    RunIs(src, q, m, IsDigit);
    RunIs(src, m + 1, r, IsDigit);
    LexOne(src, q, r, NUMBER);
  }

  // A character that starts no word, number, directive or comment.
  predicate SymbolAt(src: string, q: nat) {
    q < |src| && !IsAlnum(src[q]) && !IsSpace(src[q]) && src[q] != '#' && src[q] != NUL && !CommentAt(src, q)
  }

  lemma {:induction false} LexSymbol(src: string, q: nat)
    requires SymbolAt(src, q) && TwoKind(src[q], Peek(src, q + 1)) == UNKNOWN
    ensures TokensFrom(src, q) == After([Token(OneKind(src[q]), [src[q]])], TokensFrom(src, q + 1))
  {
    hide TokensFrom, OneKind, TwoKind;
    assert src[q..q + 1] == [src[q]];
    SpelledOne(src[q]);
    SymbolEnds(src[q]);
    LexOne(src, q, q + 1, OneKind(src[q]));
  }

  lemma {:induction false} SymbolEnds(c: char)
    ensures OneKind(c) != END_OF_FILE
  {
  }

  lemma {:induction false} LexPair(src: string, q: nat)
    requires SymbolAt(src, q) && TwoKind(src[q], Peek(src, q + 1)) != UNKNOWN
    ensures q + 1 < |src|
    ensures TokensFrom(src, q) == After([Token(TwoKind(src[q], src[q + 1]), src[q..q + 2])], TokensFrom(src, q + 2))
  {
    NulIsNoSymbol(src[q]);
    PairEnds(src[q], src[q + 1]);
    hide TokensFrom, OneKind, TwoKind;
    LexOne(src, q, q + 2, TwoKind(src[q], src[q + 1]));
  }

  lemma {:induction false} PairEnds(c: char, d: char)
    ensures TwoKind(c, d) != END_OF_FILE
  {
  }

  // 1.5.x: a number takes one fraction
  lemma {:induction false} SecondDot()
    ensures Tokenize("1.5.x") == Some([Token(NUMBER, "1.5"), Token(UNKNOWN, "."), Token(IDENT, "x")])
  {
    hide TokensFrom, WordKind;
    var src := "1.5.x";
    var number, dot, name := Token(NUMBER, "1.5"), Token(UNKNOWN, "."), Token(IDENT, "x");
    assert src[0..3] == "1.5" && src[3..4] == "." && src[4..5] == "x";
    LexDecimal(src, 0, 1, 3);
    LexSymbol(src, 3);
    LexWord(src, 4, 5);
    LexEnd(src);
    PlainName("x");
    assert [name] + [] == [name] && [dot] + [name] == [dot, name];
    assert [number] + [dot, name] == [number, dot, name];
  }

  lemma {:induction false} PlainName(n: string)
    requires |n| == 1
    ensures WordKind(n) == IDENT
  {
  }

  // var x = a & b: read as a declaration, and behind the character that is no token of the grammar
  // as another statement
  lemma {:induction false} AmpersandText()
    ensures var toks := Tokenize("var x = a & b");
            toks == Some([Token(VAR, "var"), Token(IDENT, "x"), Token(EQ, "="), Token(IDENT, "a"), Token(UNKNOWN, "&"),
                          Token(IDENT, "b")]) &&
            ParseProgram(toks.value) == Done([VarDecl("x", Identifier("a")), ExprStmt(Identifier("b"))], 6)
  {
    hide TokensFrom, ParseFrom, WordKind, OneKind, TwoKind;
    var src := "var x = a & b";
    var ts := [Token(VAR, "var"), Token(IDENT, "x"), Token(EQ, "="), Token(IDENT, "a"), Token(UNKNOWN, "&"),
               Token(IDENT, "b")];
    AmpersandTokens(src);
    LoneAmpersand(ts);
  }

  lemma {:induction false} AmpersandTokens(src: string)
    requires src == "var x = a & b"
    ensures Tokenize(src) == Some([Token(VAR, "var"), Token(IDENT, "x"), Token(EQ, "="), Token(IDENT, "a"),
                                   Token(UNKNOWN, "&"), Token(IDENT, "b")])
  {
    hide TokensFrom, WordKind;
    var kw, x, eq, a, amp, b := Token(VAR, "var"), Token(IDENT, "x"), Token(EQ, "="), Token(IDENT, "a"),
      Token(UNKNOWN, "&"), Token(IDENT, "b");
    AmpersandParts(src);
    LexEnd(src);
    assert [b] + [] == [b] && [amp] + [b] == [amp, b] && [a] + [amp, b] == [a, amp, b];
    assert [eq] + [a, amp, b] == [eq, a, amp, b] && [x] + [eq, a, amp, b] == [x, eq, a, amp, b];
    assert [kw] + [x, eq, a, amp, b] == [kw, x, eq, a, amp, b];
  }

  lemma {:induction false} AmpersandParts(src: string)
    requires src == "var x = a & b"
    ensures TokensFrom(src, 0) == After([Token(VAR, "var")], TokensFrom(src, 4))
    ensures TokensFrom(src, 4) == After([Token(IDENT, "x")], TokensFrom(src, 6))
    ensures TokensFrom(src, 6) == After([Token(EQ, "=")], TokensFrom(src, 8))
    ensures TokensFrom(src, 8) == After([Token(IDENT, "a")], TokensFrom(src, 10))
    ensures TokensFrom(src, 10) == After([Token(UNKNOWN, "&")], TokensFrom(src, 12))
    ensures TokensFrom(src, 12) == After([Token(IDENT, "b")], TokensFrom(src, 13))
  {
    hide TokensFrom, After, WordKind;
    assert src[0..3] == "var";
    LexWord(src, 0, 3);
    LexSpace(src, 3);
    VarKeyword();
    NameThenSpace(src, 4);
    SymbolThenSpace(src, 6);
    NameThenSpace(src, 8);
    SymbolThenSpace(src, 10);
    assert src[12..13] == "b";
    LexWord(src, 12, 13);
    PlainName("b");
  }

  lemma {:induction false} NameThenSpace(src: string, q: nat)
    requires q + 1 < |src| && IsAlpha(src[q]) && src[q + 1] == ' '
    ensures TokensFrom(src, q) == After([Token(IDENT, [src[q]])], TokensFrom(src, q + 2))
  {
    hide TokensFrom, After, WordKind;
    assert src[q..q + 1] == [src[q]];
    LexWord(src, q, q + 1);
    LexSpace(src, q + 1);
    PlainName([src[q]]);
  }

  lemma {:induction false} SymbolThenSpace(src: string, q: nat)
    requires q + 1 < |src| && SymbolAt(src, q) && src[q + 1] == ' '
    ensures TokensFrom(src, q) == After([Token(OneKind(src[q]), [src[q]])], TokensFrom(src, q + 2))
  {
    hide TokensFrom, After, OneKind;
    LexSymbol(src, q);
    LexSpace(src, q + 1);
  }

  lemma {:induction false} VarKeyword()
    ensures WordKind("var") == VAR
  {
  }

  // a//b and on the next line <=c: the comment ends with its line
  lemma {:induction false} CommentText()
    ensures Tokenize("a//b\n<=c") == Some([Token(IDENT, "a"), Token(LOWER_EQ, "<="), Token(IDENT, "c")])
  {
    hide TokensFrom;
    var src := "a//b\n<=c";
    var a, le, c := Token(IDENT, "a"), Token(LOWER_EQ, "<="), Token(IDENT, "c");
    CommentParts(src);
    LexEnd(src);
    assert [c] + [] == [c] && [le] + [c] == [le, c] && [a] + [le, c] == [a, le, c];
  }

  lemma {:induction false} CommentParts(src: string)
    requires src == "a//b\n<=c"
    ensures TokensFrom(src, 0) == After([Token(IDENT, "a")], TokensFrom(src, 5))
    ensures TokensFrom(src, 5) == After([Token(LOWER_EQ, "<=")], TokensFrom(src, 7))
    ensures TokensFrom(src, 7) == After([Token(IDENT, "c")], TokensFrom(src, 8))
  {
    hide TokensFrom, After, WordKind;
    assert src[0..1] == "a" && src[5..7] == "<=" && src[7..8] == "c";
    LexWord(src, 0, 1);
    LexComment(src, 1, 4);
    LexSpace(src, 4);
    LexPair(src, 5);
    LexWord(src, 7, 8);
    PlainName("a");
    PlainName("c");
  }

  lemma {:induction false} LexComment(src: string, q: nat, r: nat)
    requires CommentSpan(src, q, r) && r < |src| && src[r] == '\n'
    ensures TokensFrom(src, q) == TokensFrom(src, r)
  {
    SkipComment(src, q, r);
    hide TokenAt, SkipBlank;
  }

  // A directive is one token, holding the name behind it; only import has a kind.
  lemma {:induction false} Directives(src: string, m: nat, n: nat, r: nat)
    requires 1 <= m <= n <= r <= |src| && src[0] == '#' && (forall k :: 1 <= k < m ==> IsAlpha(src[k]))
    requires (m < |src| ==> !IsAlpha(src[m])) && BlankSpan(src, m, n)
    requires n < |src| ==> !IsSpace(src[n]) && !CommentAt(src, n)
    requires (forall k :: n <= k < r ==> IsAlpha(src[k])) && (r < |src| ==> !IsAlpha(src[r]))
    ensures if src[1..m] == "import" then TokensFrom(src, 0) == After([Token(IMPORT, src[n..r])], TokensFrom(src, r))
            else TokensFrom(src, 0) == None
  {
    hide BlankSpan, SkipBlank;
    RunIs(src, 1, m, IsAlpha);
    BlankIsSkipped(src, m, n);
    RunIs(src, n, r, IsAlpha);
    NoBlank(src);
  }

  lemma {:induction false} NoBlank(src: string)
    requires src != "" && src[0] == '#'
    ensures SkipBlank(src, 0) == 0
  {
    RunIs(src, 0, 0, IsSpace);
  }
}
