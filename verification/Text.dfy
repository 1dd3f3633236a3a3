// From program trees to source text and back, through the lexer and the parser.
module Text {
  import opened Wrappers
  import opened Tokens
  import opened Lexing
  import opened Lexemes
  import opened Ast
  import opened Numerals
  import opened Parsing
  import opened Grammar
  import opened Printer
  import opened Programs
  import opened Formatter

  // ---------- trees that can be written as text ----------

  // Lexed as an identifier: letters and digits after a letter, and no keyword.
  ghost predicate NameOk(n: string) {
    KindOf(n) == Some(IDENT)
  }

  ghost predicate Writable(e: Expr) {
    match e
    case IntLiteral(n) => n >= 0
    case Identifier(n) => NameOk(n)
    case Assign(n, v) => NameOk(n) && Writable(v)
    case FuncCall(n, args) => NameOk(n) && forall k :: 0 <= k < |args| ==> Writable(args[k])
    case Binary(_, l, r) => Writable(l) && Writable(r)
    case Unary(_, x) => Writable(x)
  }

  ghost predicate WritableStmt(s: Stmt) {
    match s
    case VarDecl(n, v) => NameOk(n) && Writable(v)
    case Block(b) => forall k :: 0 <= k < |b| ==> WritableStmt(b[k])
    case IfElse(c, yes, no) =>
      Writable(c) && (forall k :: 0 <= k < |yes| ==> WritableStmt(yes[k])) &&
      (no.Else? ==> forall k :: 0 <= k < |no.body| ==> WritableStmt(no.body[k]))
    case ExprStmt(e) => Writable(e)
  }

  ghost predicate WritableAll(ss: seq<Stmt>) {
    forall k :: 0 <= k < |ss| ==> WritableStmt(ss[k])
  }

  // ---------- printed tokens are lexemes ----------

  lemma {:induction false} LexableJoin(a: seq<Token>, b: seq<Token>)
    requires Lexable(a) && Lexable(b)
    ensures Lexable(a + b)
  {
    hide KindOf;
  }

  lemma {:induction false} LexableNothing()
    ensures Lexable([])
  {
  }

  lemma {:induction false} LexableSym(k: TokenType)
    requires Spelling(k) != ""
    ensures Lexable([Sym(k)])
  {
    hide KindOf;
    SpellingIsLexeme(k);
  }

  lemma {:induction false} LexableName(n: string, k: TokenType)
    requires NameOk(n) && Spelling(k) != ""
    ensures Lexable([Token(IDENT, n)]) && Lexable([Token(IDENT, n), Sym(k)])
  {
    hide KindOf;
    SpellingIsLexeme(k);
  }

  lemma {:induction false} LexableNumber(n: nat)
    ensures Lexable([Token(NUMBER, ShowInt(n))])
  {
    assert Digits(Show(n));
    assert !IsAlpha(Show(n)[0]);
  }

  lemma {:induction false} OperatorSpelled(op: TokenType)
    requires OpLevel(op) < UNARY || IsUnary(op)
    ensures Spelling(op) != ""
  {
  }

  lemma {:induction false} CanonLexable(e: Expr, level: nat, tail: bool)
    requires Buildable(e) && Writable(e)
    ensures Lexable(Yield(Canon(e, level, tail)))
    decreases e, 1
  {
    hide Bare, Canon, Buildable, Writable, NeedsBrackets, Lexable, Sym, Width, YieldArgs;
    CanonUnfold(e, level, tail);
    BareLexable(e, tail);
    BareLexable(e, true);
    var i := Bare(e, true);
    LexableSym(L_PAREN);
    LexableSym(R_PAREN);
    LexableJoin(Yield(i), [Sym(R_PAREN)]);
    LexableJoin([Sym(L_PAREN)], Yield(i) + [Sym(R_PAREN)]);
  }

  lemma {:induction false} BareLexable(e: Expr, tail: bool)
    requires Buildable(e) && Writable(e)
    ensures Lexable(Yield(Bare(e, tail)))
    decreases e, 0
  {
    hide Canon, CanonArgs, Lexable, NameOk, ShowInt, OpLevel, Sym;
    match e
    case IntLiteral(n) => LexableNumber(n);
    case Identifier(n) => LexableName(n, EQ);
    case Assign(n, v) =>
      LexableName(n, EQ);
      CanonLexable(v, LOGICAL, true);
      LexableJoin([Token(IDENT, n), Sym(EQ)], Yield(Canon(v, LOGICAL, true)));
    case FuncCall(n, args) =>
      LexableName(n, COLON);
      ArgsLexable(args);
      LexableSym(SEMICOLON);
      var ys := YieldArgs(CanonArgs(args));
      LexableJoin(ys, [Sym(SEMICOLON)]);
      LexableJoin([Token(IDENT, n), Sym(COLON)], ys + [Sym(SEMICOLON)]);
    case Binary(op, l, r) =>
      var a, b := Canon(l, OpLevel(op), false), Canon(r, OpLevel(op) + 1, tail);
      CanonLexable(l, OpLevel(op), false);
      CanonLexable(r, OpLevel(op) + 1, tail);
      OperatorSpelled(op);
      LexableSym(op);
      LexableJoin([Sym(op)], Yield(b));
      LexableJoin(Yield(a), [Sym(op)] + Yield(b));
    case Unary(op, x) =>
      CanonLexable(x, UNARY, tail);
      OperatorSpelled(op);
      LexableSym(op);
      LexableJoin([Sym(op)], Yield(Canon(x, UNARY, tail)));
  }

  lemma {:induction false} ArgsLexable(args: seq<Expr>)
    requires AllBuildable(args) && forall k :: 0 <= k < |args| ==> Writable(args[k])
    ensures Lexable(YieldArgs(CanonArgs(args)))
    decreases args, 0
  {
    hide Canon, Lexable, Buildable, Writable, Yield;
    if args == [] {
      LexableNothing();
    } else {
      BuildableTail(args);
      hide AllBuildable;
      var f, rest := Canon(args[0], LOGICAL, true), YieldArgs(CanonArgs(args[1..]));
      CanonLexable(args[0], LOGICAL, true);
      forall k | 0 <= k < |args[1..]| ensures Writable(args[1..][k]) {
        assert args[1..][k] == args[k + 1];
      }
      ArgsLexable(args[1..]);
      LexableSym(COMMA);
      LexableJoin([Sym(COMMA)], rest);
      LexableJoin(Yield(f), [Sym(COMMA)] + rest);
      LexableJoin(Yield(f), rest);
      assert [] + rest == rest;
    }
  }

  lemma {:induction false} StmtLexable(s: Stmt)
    requires BuildableStmt(s) && WritableStmt(s)
    ensures Lexable(PrintStmt(s))
    decreases s, 1
  {
    hide Lexable, PrintExpr, PrintBlock, PrintElse, Buildable, Writable, NameOk, Sym;
    match s
    case VarDecl(n, v) =>
      ExprLexable(v);
      LexableSym(VAR);
      LexableName(n, EQ);
      LexableJoin([Token(IDENT, n), Sym(EQ)], PrintExpr(v));
      LexableJoin([Sym(VAR)], [Token(IDENT, n), Sym(EQ)] + PrintExpr(v));
    case Block(b) => BlockLexable(b);
    case IfElse(c, yes, no) =>
      ExprLexable(c);
      BlockLexable(yes);
      ElseLexable(no);
      IfLexable(PrintExpr(c), PrintBlock(yes), PrintElse(no));
    case ExprStmt(e) => ExprLexable(e);
  }

  lemma {:induction false} ExprLexable(e: Expr)
    requires Buildable(e) && Writable(e)
    ensures Lexable(PrintExpr(e))
  {
    hide Lexable, Buildable, Writable, Canon, Yield;
    CanonLexable(e, LOGICAL, true);
  }

  lemma {:induction false} IfLexable(a: seq<Token>, b: seq<Token>, c: seq<Token>)
    requires Lexable(a) && Lexable(b) && Lexable(c)
    ensures Lexable([Sym(IF), Sym(L_PAREN)] + (a + ([Sym(R_PAREN)] + (b + c))))
  {
    hide Lexable, Sym;
    LexableSym(IF);
    LexableSym(L_PAREN);
    LexableSym(R_PAREN);
    LexableJoin([Sym(IF)], [Sym(L_PAREN)]);
    assert [Sym(IF)] + [Sym(L_PAREN)] == [Sym(IF), Sym(L_PAREN)];
    LexableJoin(b, c);
    LexableJoin([Sym(R_PAREN)], b + c);
    LexableJoin(a, [Sym(R_PAREN)] + (b + c));
    LexableJoin([Sym(IF), Sym(L_PAREN)], a + ([Sym(R_PAREN)] + (b + c)));
  }

  lemma {:induction false} BlockLexable(b: seq<Stmt>)
    requires BuildableAll(b) && WritableAll(b)
    ensures Lexable(PrintBlock(b))
    decreases b, 2
  {
    hide Lexable, BuildableAll, WritableAll, PrintAll;
    AllLexable(b);
    LexableSym(L_CURL_BRKT);
    LexableSym(R_CURL_BRKT);
    LexableJoin(PrintAll(b), [Sym(R_CURL_BRKT)]);
    LexableJoin([Sym(L_CURL_BRKT)], PrintAll(b) + [Sym(R_CURL_BRKT)]);
  }

  lemma {:induction false} ElseLexable(no: ElsePart)
    requires no.Else? ==> BuildableAll(no.body) && WritableAll(no.body)
    ensures Lexable(PrintElse(no))
    decreases no
  {
    if no.Else? {
      hide Lexable, BuildableAll, WritableAll, PrintBlock;
      BlockLexable(no.body);
      LexableSym(ELSE);
      LexableJoin([Sym(ELSE)], PrintBlock(no.body));
    }
  }

  lemma {:induction false} AllLexable(ss: seq<Stmt>)
    requires BuildableAll(ss) && WritableAll(ss)
    ensures Lexable(PrintAll(ss))
    decreases ss, 1
  {
    hide BuildableStmt, WritableStmt, PrintStmt, KindOf;
    if ss != [] {
      AllTail(ss);
      forall k | 0 <= k < |ss[1..]| ensures WritableStmt(ss[1..][k]) {
        assert ss[1..][k] == ss[k + 1];
      }
      StmtLexable(ss[0]);
      AllLexable(ss[1..]);
      LexableJoin(PrintStmt(ss[0]), PrintAll(ss[1..]));
    }
  }

  // ---------- text round trip ----------

  function Format(program: seq<Stmt>): string {
    Render(PrintAll(program))
  }

  // Any writable program, written out, is lexed and parsed back to itself.
  lemma {:induction false} TextRoundTrip(program: seq<Stmt>)
    requires BuildableAll(program) && WritableAll(program)
    ensures var toks := Tokenize(Format(program)); toks.Some? && ParseProgram(toks.value) == Done(program, |toks.value|)
  {
    hide BuildableAll, WritableAll, PrintAll, Lexable, ParseProgram, Tokenize;
    AllLexable(program);
    RenderRoundTrip(PrintAll(program));
    ProgramRoundTrip(program);
  }

  // ---------- what comes out of a text can be written as text ----------

  lemma {:induction false} LaidOutIsLexable(src: string, p: nat, starts: seq<nat>, toks: seq<Token>)
    requires LaidOut(src, p, starts, toks)
    ensures Lexable(toks)
    decreases |toks|
  {
    hide KindOf, BlankSpan;
    if toks != [] {
      LaidOutIsLexable(src, starts[0] + |toks[0].content|, starts[1..], toks[1..]);
      LexableJoin([toks[0]], toks[1..]);
      assert toks == [toks[0]] + toks[1..];
    }
  }

  lemma {:induction false} NumberIsNatural(t: string)
    requires KindOf(t) == Some(NUMBER) && Stoll(t).Some?
    ensures Stoll(t).value >= 0
  {
    hide Value;
    NumberStart(t);
    RunIs(t, 0, 0, IsSpace);
  }

  lemma {:induction false} NumberStart(t: string)
    requires KindOf(t) == Some(NUMBER)
    ensures t != "" && IsDigit(t[0])
  {
    if Decimal(t) {
      DecimalStart(t);
    }
  }

  lemma {:induction false} FitsWritable(d: Cst, ts: seq<Token>, p: nat, e: Expr, q: nat)
    requires Fits(d, ts, p, e, q) && Lexable(ts)
    ensures Writable(e)
    decreases d
  {
    hide OpLevel, LevelOf, OpenRight, Fits, ArgsFit, Stoll, IsUnary, KindOf;
    FitsInside(d, ts, p, e, q);
    match d
    case CNumber(text) =>
      FitsNumber(text, ts, p, e);
      NumberIsNatural(text);
    case CName(n) => FitsName(n, ts, p, e);
    case CAssign(n, v) =>
      FitsAssign(n, v, ts, p, e, q);
      FitsWritable(v, ts, p + 2, e.value, q);
    case CCall(n, args) =>
      FitsCall(n, args, ts, p, e, q - 1);
      ArgsWritable(args, ts, p + 2, e.args, q - 1);
    case CParen(i) =>
      FitsParen(i, ts, p, e, q - 1);
      FitsWritable(i, ts, p + 1, e, q - 1);
    case CUnary(op, x) =>
      FitsUnary(op, x, ts, p, e, q);
      FitsWritable(x, ts, p + 1, e.operand, q);
    case CBinary(op, l, r) =>
      FitsBinary(op, l, r, ts, p, e, q);
      FitsWritable(l, ts, p, e.left, p + Width(l));
      FitsWritable(r, ts, p + Width(l) + 1, e.right, q);
  }

  lemma {:induction false} ArgsWritable(args: Args, ts: seq<Token>, p: nat, es: seq<Expr>, q: nat)
    requires ArgsFit(args, ts, p, es, q) && Lexable(ts)
    ensures forall k :: 0 <= k < |es| ==> Writable(es[k])
    decreases args
  {
    hide Fits, Writable, Lexable;
    match args
    case NoArgs =>
    case Arg(f, comma, rest) =>
      var m := p + Width(f);
      FitsWritable(f, ts, p, es[0], m);
      ArgsWritable(rest, ts, if comma then m + 1 else m, es[1..], q);
      forall k | 0 <= k < |es| ensures Writable(es[k]) {
        if k > 0 {
          assert es[k] == es[1..][k - 1];
        }
      }
  }

  lemma {:induction false} NameLexed(ts: seq<Token>, p: nat)
    requires Lexable(ts) && At(ts, p, IDENT)
    ensures NameOk(ts[p].content)
  {
    hide KindOf;
  }

  lemma {:induction false} StmtWritable(it: Item, ts: seq<Token>, p: nat, s: Stmt, q: nat)
    requires StmtFits(it, ts, p, s, q) && Lexable(ts)
    ensures WritableStmt(s)
    decreases it, 1
  {
    hide StmtFits, ItemsFit, ThenFits, Fits, Writable, KindOf, Stops, LevelOf, Lexable, NameOk, Width, ItemsWidth;
    StmtInside(it, ts, p, s, q);
    match it
    case ISkip =>
    case IDecl(_, typed, v) =>
      TakeDecl(it, ts, p, s, q);
      NameLexed(ts, p + 1);
      FitsWritable(v, ts, if typed then p + 5 else p + 3, s.value, q);
    case IBlock(b) =>
      TakeBlock(b, ts, p, s, q);
      ItemsWritable(b, ts, p + 1, s.body, q - 1, true);
    case IIf(c, yes) =>
      TakeIf(it, ts, p, s, q);
      ThenWritable(c, yes, ts, p, s.cond, s.yes, q);
    case IIfElse(c, yes, no) =>
      TakeIfElse(it, ts, p, s, q);
      var m := p + 5 + Width(c) + ItemsWidth(yes);
      ThenWritable(c, yes, ts, p, s.cond, s.yes, m);
      ItemsWritable(no, ts, m + 2, s.no.body, q - 1, true);
    case IExpr(d) =>
      TakeExpr(d, ts, p, s, q);
      FitsWritable(d, ts, p, s.e, q);
  }

  lemma {:induction false} ThenWritable(c: Cst, yes: Items, ts: seq<Token>, p: nat, cond: Expr, ss: seq<Stmt>, q: nat)
    requires ThenFits(c, yes, ts, p, cond, ss, q) && Lexable(ts)
    ensures Writable(cond) && WritableAll(ss)
    decreases yes, 1
  {
    hide ItemsFit, Fits, Writable, WritableAll, Lexable;
    var m := p + 2 + Width(c);
    FitsWritable(c, ts, p + 2, cond, m);
    ItemsWritable(yes, ts, m + 2, ss, q - 1, true);
  }

  lemma {:induction false} ItemsWritable(its: Items, ts: seq<Token>, p: nat, ss: seq<Stmt>, q: nat, inner: bool)
    requires ItemsFit(its, ts, p, ss, q, inner) && Lexable(ts)
    ensures WritableAll(ss)
    decreases its, 0
  {
    hide StmtFits, WritableStmt, Lexable;
    match its
    case Nothing =>
    case Then(it, rest) =>
      TakeItem(it, rest, ts, p, ss, q, inner);
      hide ItemsFit;
      var m := p + ItemWidth(it);
      if it.ISkip? {
        ItemsWritable(rest, ts, m, ss, q, inner);
      } else {
        StmtWritable(it, ts, p, ss[0], m);
        ItemsWritable(rest, ts, m, ss[1..], q, inner);
        forall k | 0 <= k < |ss| ensures WritableStmt(ss[k]) {
          if k > 0 {
            assert ss[k] == ss[1..][k - 1];
          }
        }
      }
  }

  // Formatting is faithful: any text that lexes and parses, formatted, lexes and parses to the
  // same program.
  lemma {:induction false} FormatKeepsMeaning(src: string, toks: seq<Token>, program: seq<Stmt>)
    requires Plain(src) && Tokenize(src) == Some(toks) && ParseProgram(toks) == Done(program, |toks|)
    ensures BuildableAll(program) && WritableAll(program)
    ensures var again := Tokenize(Format(program));
            again.Some? && ParseProgram(again.value) == Done(program, |again.value|)
  {
    hide LaidOut, ItemsFit, BuildableAll, WritableAll, Lexable, PrintAll, TokensFrom, ParseFrom, Plain;
    var starts := LexedIsLaidOut(src, 0);
    LaidOutIsLexable(src, 0, starts, toks);
    var its := ProgramSound([], toks, 0, program);
    assert program[0..] == program;
    ItemsBuildable(its, toks, 0, program, |toks|, false);
    ItemsWritable(its, toks, 0, program, |toks|, false);
    TextRoundTrip(program);
  }
}
