// Printing whole programs as tokens and as text, and reading them back.
module Formatter {
  import opened Wrappers
  import opened Tokens
  import opened Lexing
  import opened Lexemes
  import opened Ast
  import opened Numerals
  import opened Parsing
  import opened Grammar
  import opened Printer
  import opened Programs

  // ---------- the programs the parser can build ----------

  // A statement that is an expression starts with a name.
  predicate BuildableStmt(s: Stmt) {
    match s
    case VarDecl(_, v) => Buildable(v)
    case Block(b) => forall k :: 0 <= k < |b| ==> BuildableStmt(b[k])
    case IfElse(c, yes, no) =>
      Buildable(c) && (forall k :: 0 <= k < |yes| ==> BuildableStmt(yes[k])) &&
      (no.Else? ==> forall k :: 0 <= k < |no.body| ==> BuildableStmt(no.body[k]))
    case ExprStmt(e) => Buildable(e) && (e.Identifier? || e.Assign? || e.FuncCall?)
  }

  predicate BuildableAll(ss: seq<Stmt>) {
    forall k :: 0 <= k < |ss| ==> BuildableStmt(ss[k])
  }

  lemma {:induction false} AllTail(ss: seq<Stmt>)
    requires BuildableAll(ss) && ss != []
    ensures BuildableStmt(ss[0]) && BuildableAll(ss[1..])
  {
    hide BuildableStmt;
    forall k | 0 <= k < |ss[1..]| ensures BuildableStmt(ss[1..][k]) {
      assert ss[1..][k] == ss[k + 1];
    }
  }

  // ---------- printing ----------

  function PrintStmt(s: Stmt): seq<Token>
    decreases s, 0
  {
    match s
    case VarDecl(n, v) => [Sym(VAR)] + ([Token(IDENT, n), Sym(EQ)] + PrintExpr(v))
    case Block(b) => PrintBlock(b)
    case IfElse(c, yes, no) =>
      [Sym(IF), Sym(L_PAREN)] + (PrintExpr(c) + ([Sym(R_PAREN)] + (PrintBlock(yes) + PrintElse(no))))
    case ExprStmt(e) => PrintExpr(e)
  }

  function PrintBlock(b: seq<Stmt>): (ts: seq<Token>)
    ensures |ts| == |PrintAll(b)| + 2
    decreases b, 1
  {
    [Sym(L_CURL_BRKT)] + (PrintAll(b) + [Sym(R_CURL_BRKT)])
  }

  function PrintElse(no: ElsePart): seq<Token>
    decreases no, 0
  {
    if no.NoElse? then [] else [Sym(ELSE)] + PrintBlock(no.body)
  }

  function PrintAll(ss: seq<Stmt>): seq<Token>
    decreases ss, 0
  {
    if ss == [] then [] else PrintStmt(ss[0]) + PrintAll(ss[1..])
  }

  // ---------- reading back: tokens ----------

  // Extends no expression, and is no else.
  predicate Quiet(k: TokenType) {
    OpLevel(k) == NO_OPERATOR && k != COLON && k != EQ && k != ELSE
  }

  lemma {:induction false} QuietStops(level: nat, d: Cst, k: TokenType)
    requires Quiet(k)
    ensures Stops(level, d, k)
  {
  }

  lemma {:induction false} PrintedExpr(e: Expr, ts: seq<Token>, p: nat)
    requires Buildable(e) && Has(ts, p, PrintExpr(e)) && Quiet(KindAt(ts, p + |PrintExpr(e)|))
    ensures p <= |ts| && ParseAt(LOGICAL, ts, p) == Done(e, p + |PrintExpr(e)|)
  {
    hide Buildable, Canon, Has, ParseAt, Quiet, Stops;
    QuietStops(LOGICAL, Canon(e, LOGICAL, true), KindAt(ts, p + |PrintExpr(e)|));
    PrintParse(e, LOGICAL, ts, p);
  }

  lemma {:induction false} PrintedName(e: Expr, ts: seq<Token>, p: nat)
    requires Buildable(e) && (e.Identifier? || e.Assign? || e.FuncCall?)
    requires Has(ts, p, PrintExpr(e)) && Quiet(KindAt(ts, p + |PrintExpr(e)|))
    ensures At(ts, p, IDENT) && ParseAt(PRIMARY, ts, p) == Done(e, p + |PrintExpr(e)|)
  {
    hide Buildable, Canon, Has, ParseAt, Quiet, Stops, Yield;
    SameCanon(e);
    NameFirst(e);
    FirstOf(ts, p, PrintExpr(e));
    QuietStops(PRIMARY, Canon(e, PRIMARY, true), KindAt(ts, p + |PrintExpr(e)|));
    PrintParse(e, PRIMARY, ts, p);
  }

  lemma {:induction false} SameCanon(e: Expr)
    requires e.Identifier? || e.Assign? || e.FuncCall?
    ensures Canon(e, PRIMARY, true) == Canon(e, LOGICAL, true)
  {
    hide Bare;
  }

  lemma {:induction false} FirstOf(ts: seq<Token>, p: nat, ys: seq<Token>)
    requires Has(ts, p, ys) && ys != []
    ensures p < |ts| && ts[p] == ys[0]
  {
    assert ts[p..p + |ys|][0] == ys[0];
  }

  lemma {:induction false} NameFirst(e: Expr)
    requires e.Identifier? || e.Assign? || e.FuncCall?
    ensures PrintExpr(e) != [] && PrintExpr(e)[0].kind == IDENT
  {
    hide OpLevel, CanonArgs;
    assert Canon(e, LOGICAL, true) == Bare(e, true);
    match e
    case Identifier(n) =>
    case Assign(n, v) => assert PrintExpr(e)[0] == Token(IDENT, n);
    case FuncCall(n, args) => assert PrintExpr(e)[0] == Token(IDENT, n);
  }

  lemma {:induction false} PrintedStmt(s: Stmt, ts: seq<Token>, p: nat)
    requires BuildableStmt(s) && Has(ts, p, PrintStmt(s)) && Quiet(KindAt(ts, p + |PrintStmt(s)|))
    ensures p < |ts| && StartsStmt(ts[p].kind) && ParseStmt(ts, p) == Done(s, p + |PrintStmt(s)|)
    decreases s, 2
  {
    hide Has, Quiet, PrintBlock, PrintElse, PrintExpr, ParseStmt, ParseAt, ParseBlock, ParseIf, ParseVarDecl,
      Buildable, KindAt, Sym;
    match s
    case VarDecl(n, v) =>
      PrintedDecl(n, v, ts, p);
      StmtStep(ts, p);
    case Block(b) =>
      PrintedBlock(b, ts, p);
      StmtStep(ts, p);
    case IfElse(c, yes, no) =>
      PrintedIf(c, yes, no, ts, p);
      StmtStep(ts, p);
    case ExprStmt(e) =>
      PrintedName(e, ts, p);
      StmtStep(ts, p);
  }

  lemma {:induction false} PrintedDecl(n: string, v: Expr, ts: seq<Token>, p: nat)
    requires Buildable(v) && Has(ts, p, PrintStmt(VarDecl(n, v))) && Quiet(KindAt(ts, p + |PrintStmt(VarDecl(n, v))|))
    ensures At(ts, p, VAR) && ParseVarDecl(ts, p) == Done(VarDecl(n, v), p + |PrintStmt(VarDecl(n, v))|)
  {
    hide Has, Quiet, PrintExpr, ParseAt, Buildable;
    HasFirst(ts, p, Sym(VAR), [Token(IDENT, n), Sym(EQ)] + PrintExpr(v));
    HasTwo(ts, p + 1, Token(IDENT, n), Sym(EQ), PrintExpr(v));
    PrintedExpr(v, ts, p + 3);
  }

  // Opened at p - 1; closed where the statements end.
  lemma {:induction false} PrintedBody(before: seq<Stmt>, ss: seq<Stmt>, ts: seq<Token>, p: nat)
    requires BuildableAll(ss) && Has(ts, p, PrintAll(ss)) && At(ts, p + |PrintAll(ss)|, R_CURL_BRKT)
    ensures p <= |ts| && ParseBody(before, ts, p) == Done(before + ss, p + |PrintAll(ss)| + 1)
    decreases ss, 0
  {
    hide Has, ParseBody, ParseStmt, PrintStmt, BuildableAll, BuildableStmt, Quiet;
    if ss == [] {
      BodyStep(before, ts, p);
      assert before + ss == before;
    } else {
      var m := p + |PrintStmt(ss[0])|;
      AllTail(ss);
      HasParts(ts, p, PrintStmt(ss[0]), PrintAll(ss[1..]));
      QuietNext(ss[1..], ts, m);
      PrintedStmt(ss[0], ts, p);
      BodyStep(before, ts, p);
      PrintedBody(before + [ss[0]], ss[1..], ts, m);
      Rejoin(before, ss);
    }
  }

  // After a statement comes another one, a closing bracket or the end.
  lemma {:induction false} QuietNext(ss: seq<Stmt>, ts: seq<Token>, p: nat)
    requires BuildableAll(ss) && Has(ts, p, PrintAll(ss))
    requires KindAt(ts, p + |PrintAll(ss)|) == R_CURL_BRKT || KindAt(ts, p + |PrintAll(ss)|) == END_OF_FILE
    ensures Quiet(KindAt(ts, p))
  {
    hide BuildableStmt, Has, PrintElse, Yield;
    if ss != [] {
      hide PrintStmt;
      FirstOfStmt(ss[0]);
      FirstOf(ts, p, PrintAll(ss));
    }
  }

  lemma {:induction false} FirstOfStmt(s: Stmt)
    requires BuildableStmt(s)
    ensures PrintStmt(s) != [] && StartsStmt(PrintStmt(s)[0].kind)
  {
    hide PrintAll, PrintElse, PrintExpr, Buildable, OpLevel;
    if s.ExprStmt? {
      NameFirst(s.e);
    }
  }

  lemma {:induction false} PrintedBlock(b: seq<Stmt>, ts: seq<Token>, p: nat)
    requires BuildableAll(b) && Has(ts, p, PrintBlock(b))
    ensures At(ts, p, L_CURL_BRKT) && ParseBlock(ts, p) == Done(b, p + |PrintBlock(b)|)
    decreases b, 1
  {
    hide Has, ParseBody, BuildableAll, PrintAll;
    HasFirst(ts, p, Sym(L_CURL_BRKT), PrintAll(b) + [Sym(R_CURL_BRKT)]);
    HasLast(ts, p + 1, PrintAll(b), Sym(R_CURL_BRKT));
    PrintedBody([], b, ts, p + 1);
    assert [] + b == b;
  }

  lemma {:induction false} PrintedIf(c: Expr, yes: seq<Stmt>, no: ElsePart, ts: seq<Token>, p: nat)
    requires Buildable(c) && BuildableAll(yes) && (no.Else? ==> BuildableAll(no.body))
    requires Has(ts, p, PrintStmt(IfElse(c, yes, no))) && Quiet(KindAt(ts, p + |PrintStmt(IfElse(c, yes, no))|))
    ensures At(ts, p, IF) && ParseIf(ts, p) == Done(IfElse(c, yes, no), p + |PrintStmt(IfElse(c, yes, no))|)
    decreases IfElse(c, yes, no), 1
  {
    hide Has, ParseAt, ParseBlock, ParseIf, BuildableAll, PrintBlock, PrintExpr, PrintElse, Buildable, Quiet,
      PrintStmt, Sym, OpLevel, PrintAll;
    var m := p + 2 + |PrintExpr(c)|;
    var q := m + 1 + |PrintBlock(yes)|;
    PrintsIf(c, yes, no);
    IfTokens(PrintExpr(c), PrintBlock(yes), PrintElse(no), ts, p);
    QuietParen();
    PrintedExpr(c, ts, p + 2);
    PrintedBlock(yes, ts, m + 1);
    PrintedElse(no, ts, q);
    IfResult(c, yes, no, ts, p, m, q, q + |PrintElse(no)|);
  }

  lemma {:induction false} PrintsIf(c: Expr, yes: seq<Stmt>, no: ElsePart)
    ensures PrintStmt(IfElse(c, yes, no)) ==
            [Sym(IF), Sym(L_PAREN)] + (PrintExpr(c) + ([Sym(R_PAREN)] + (PrintBlock(yes) + PrintElse(no))))
    ensures |PrintStmt(IfElse(c, yes, no))| == 3 + |PrintExpr(c)| + |PrintBlock(yes)| + |PrintElse(no)|
  {
    hide PrintExpr, PrintBlock, PrintElse;
  }

  lemma {:induction false} IfResult(c: Expr, yes: seq<Stmt>, no: ElsePart, ts: seq<Token>, p: nat, m: nat, q: nat,
                                    end: nat)
    requires At(ts, p, IF) && At(ts, p + 1, L_PAREN) && ParseAt(LOGICAL, ts, p + 2) == Done(c, m) && At(ts, m, R_PAREN)
    requires ParseBlock(ts, m + 1) == Done(yes, q)
    requires if no.NoElse? then KindAt(ts, q) != ELSE && end == q
             else At(ts, q, ELSE) && ParseBlock(ts, q + 1) == Done(no.body, end)
    ensures ParseIf(ts, p) == Done(IfElse(c, yes, no), end)
  {
    hide ParseAt, ParseBlock, ParseIf;
    IfStep(ts, p);
  }

  lemma {:induction false} QuietParen()
    ensures Quiet(R_PAREN)
  {
  }

  lemma {:induction false} PrintedElse(no: ElsePart, ts: seq<Token>, q: nat)
    requires (no.Else? ==> BuildableAll(no.body)) && Has(ts, q, PrintElse(no)) && Quiet(KindAt(ts, q + |PrintElse(no)|))
    ensures no.NoElse? ==> KindAt(ts, q) != ELSE
    ensures no.NoElse? ==> PrintElse(no) == []
    ensures no.Else? ==> At(ts, q, ELSE) && ParseBlock(ts, q + 1) == Done(no.body, q + |PrintElse(no)|)
    decreases no
  {
    hide Has, ParseBlock, BuildableAll, PrintBlock;
    if no.Else? {
      HasFirst(ts, q, Sym(ELSE), PrintBlock(no.body));
      PrintedBlock(no.body, ts, q + 1);
    }
  }

  lemma {:induction false} IfTokens(a: seq<Token>, b: seq<Token>, last: seq<Token>, ts: seq<Token>, p: nat)
    requires Has(ts, p, [Sym(IF), Sym(L_PAREN)] + (a + ([Sym(R_PAREN)] + (b + last))))
    ensures var m := p + 2 + |a|;
            At(ts, p, IF) && At(ts, p + 1, L_PAREN) && Has(ts, p + 2, a) && At(ts, m, R_PAREN) && Has(ts, m + 1, b) &&
            Has(ts, m + 1 + |b|, last)
  {
    hide Has;
    var m, rest := p + 2 + |a|, [Sym(R_PAREN)] + (b + last);
    HasTwo(ts, p, Sym(IF), Sym(L_PAREN), a + rest);
    HasParts(ts, p + 2, a, rest);
    HasFirst(ts, m, Sym(R_PAREN), b + last);
    HasParts(ts, m + 1, b, last);
  }

  lemma {:induction false} PrintedProgram(before: seq<Stmt>, ss: seq<Stmt>, ts: seq<Token>, p: nat)
    requires BuildableAll(ss) && Has(ts, p, PrintAll(ss)) && p + |PrintAll(ss)| == |ts|
    ensures p <= |ts| && ParseFrom(before, ts, p) == Done(before + ss, |ts|)
    decreases ss
  {
    hide Has, ParseFrom, ParseStmt, PrintStmt, BuildableAll, BuildableStmt;
    if ss == [] {
      assert before + ss == before;
      FromEnd(before, ts);
    } else {
      var m := p + |PrintStmt(ss[0])|;
      AllTail(ss);
      HasParts(ts, p, PrintStmt(ss[0]), PrintAll(ss[1..]));
      QuietNext(ss[1..], ts, m);
      PrintedStmt(ss[0], ts, p);
      FromStep(before, ts, p);
      PrintedProgram(before + [ss[0]], ss[1..], ts, m);
      Rejoin(before, ss);
    }
  }

  lemma {:induction false} FromEnd(before: seq<Stmt>, ts: seq<Token>)
    ensures ParseFrom(before, ts, |ts|) == Done(before, |ts|)
  {
  }

  // Parsing the print of any program the parser can build gives the program back.
  lemma {:induction false} ProgramRoundTrip(program: seq<Stmt>)
    requires BuildableAll(program)
    ensures ParseProgram(PrintAll(program)) == Done(program, |PrintAll(program)|)
  {
    hide ParseFrom, BuildableAll, PrintAll;
    var ts := PrintAll(program);
    assert ts[0..0 + |ts|] == ts;
    PrintedProgram([], program, ts, 0);
    assert [] + program == program;
  }

  // ---------- every parsed program is printed back ----------

  lemma {:induction false} StmtBuildable(it: Item, ts: seq<Token>, p: nat, s: Stmt, q: nat)
    requires StmtFits(it, ts, p, s, q)
    ensures BuildableStmt(s) && |PrintStmt(s)| <= q - p
    decreases it, 1
  {
    hide StmtFits, ItemsFit, ThenFits, Derives, PrintAll, PrintExpr, Buildable, Width, ItemsWidth, ItemWidth,
      PrintBlock, At;
    StmtInside(it, ts, p, s, q);
    match it
    case ISkip =>
    case IDecl(_, typed, v) =>
      TakeDecl(it, ts, p, s, q);
      ExprPrint(v, LOGICAL, ts, if typed then p + 5 else p + 3, s.value, q);
    case IBlock(b) =>
      TakeBlock(b, ts, p, s, q);
      ItemsBuildable(b, ts, p + 1, s.body, q - 1, true);
    case IIf(c, yes) =>
      TakeIf(it, ts, p, s, q);
      ThenBuildable(c, yes, ts, p, s.cond, s.yes, q);
    case IIfElse(c, yes, no) =>
      TakeIfElse(it, ts, p, s, q);
      var m := p + 5 + Width(c) + ItemsWidth(yes);
      ThenBuildable(c, yes, ts, p, s.cond, s.yes, m);
      ItemsBuildable(no, ts, m + 2, s.no.body, q - 1, true);
    case IExpr(d) =>
      TakeExpr(d, ts, p, s, q);
      ExprPrint(d, PRIMARY, ts, p, s.e, q);
      StartsWithName(d, ts, p, s.e, q);
  }

  lemma {:induction false} ExprPrint(d: Cst, level: nat, ts: seq<Token>, p: nat, e: Expr, q: nat)
    requires level <= PRIMARY && Derives(level, d, ts, p, e, q)
    ensures Buildable(e) && |PrintExpr(e)| <= q - p && q <= |ts|
  {
    hide Fits, Buildable, Canon, Stops, ParseAt;
    FitsInside(d, ts, p, e, q);
    FitsBuildable(d, ts, p, e, q);
    CanonShortest(d, LOGICAL, true, ts, p, e, q);
  }

  lemma {:induction false} StartsWithName(d: Cst, ts: seq<Token>, p: nat, e: Expr, q: nat)
    requires Derives(PRIMARY, d, ts, p, e, q) && At(ts, p, IDENT)
    ensures e.Identifier? || e.Assign? || e.FuncCall?
  {
    hide Stoll, ArgsFit, Stops;
  }

  lemma {:induction false} ThenBuildable(c: Cst, yes: Items, ts: seq<Token>, p: nat, cond: Expr, ss: seq<Stmt>, q: nat)
    requires ThenFits(c, yes, ts, p, cond, ss, q)
    ensures Buildable(cond) && BuildableAll(ss) && |PrintExpr(cond)| <= Width(c) && |PrintAll(ss)| <= ItemsWidth(yes)
    ensures q == p + 5 + Width(c) + ItemsWidth(yes)
    decreases yes, 1
  {
    hide ItemsFit, Fits, PrintAll, Buildable, BuildableAll, Canon, LevelOf, Yield;
    var m := p + 2 + Width(c);
    ThenWidth(c, yes, ts, p, cond, ss, q);
    FitsBuildable(c, ts, p + 2, cond, m);
    CanonShortest(c, LOGICAL, true, ts, p + 2, cond, m);
    ItemsBuildable(yes, ts, m + 2, ss, q - 1, true);
  }

  lemma {:induction false} ItemsBuildable(its: Items, ts: seq<Token>, p: nat, ss: seq<Stmt>, q: nat, inner: bool)
    requires ItemsFit(its, ts, p, ss, q, inner)
    ensures BuildableAll(ss) && |PrintAll(ss)| <= q - p
    decreases its, 0
  {
    hide StmtFits, PrintStmt, BuildableStmt;
    match its
    case Nothing =>
    case Then(it, rest) =>
      ItemsInside(its, ts, p, ss, q, inner);
      TakeItem(it, rest, ts, p, ss, q, inner);
      hide ItemsFit;
      var m := p + ItemWidth(it);
      if it.ISkip? {
        ItemsBuildable(rest, ts, m, ss, q, inner);
      } else {
        StmtBuildable(it, ts, p, ss[0], m);
        ItemsBuildable(rest, ts, m, ss[1..], q, inner);
        forall k | 0 <= k < |ss| ensures BuildableStmt(ss[k]) {
          if k > 0 {
            assert ss[k] == ss[1..][k - 1];
          }
        }
      }
  }

  // Parse, print, parse is parse; and the print is never longer than the tokens it came from.
  lemma {:induction false} ParsePrintParse(ts: seq<Token>, program: seq<Stmt>)
    requires ParseProgram(ts) == Done(program, |ts|)
    ensures BuildableAll(program) && |PrintAll(program)| <= |ts|
    ensures ParseProgram(PrintAll(program)) == Done(program, |PrintAll(program)|)
  {
    hide ItemsFit, BuildableAll, PrintAll, ParseFrom;
    var its := ProgramSound([], ts, 0, program);
    assert program[0..] == program;
    ItemsBuildable(its, ts, 0, program, |ts|, false);
    ProgramRoundTrip(program);
  }
}
