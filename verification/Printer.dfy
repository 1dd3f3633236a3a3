// A canonical printer for expressions: brackets only where the grammar needs them.
module Printer {
  import opened Wrappers
  import opened Tokens
  import opened Ast
  import opened Numerals
  import opened Parsing
  import opened Grammar

  // ---------- the trees the parser can build ----------

  predicate Buildable(e: Expr) {
    match e
    case IntLiteral(n) => -TWO63 <= n < TWO63
    case Identifier(_) => true
    case Assign(_, v) => Buildable(v)
    case FuncCall(_, args) => forall k :: 0 <= k < |args| ==> Buildable(args[k])
    case Binary(op, l, r) => OpLevel(op) < UNARY && Buildable(l) && Buildable(r)
    case Unary(op, x) => IsUnary(op) && Buildable(x)
  }

  predicate AllBuildable(es: seq<Expr>) {
    forall k :: 0 <= k < |es| ==> Buildable(es[k])
  }

  lemma {:induction false} BuildableTail(es: seq<Expr>)
    requires AllBuildable(es) && es != []
    ensures Buildable(es[0]) && AllBuildable(es[1..])
  {
    hide Buildable;
    forall k | 0 <= k < |es[1..]| ensures Buildable(es[1..][k]) {
      assert es[1..][k] == es[k + 1];
    }
  }

  function ExprLevel(e: Expr): nat {
    match e
    case Binary(op, _, _) => OpLevel(op)
    case Unary(_, _) => UNARY
    case _ => PRIMARY
  }

  // ---------- the canonical derivation ----------

  // tail: nothing that could extend the expression follows it.
  predicate NeedsBrackets(e: Expr, level: nat, tail: bool) {
    ExprLevel(e) < level || (e.Assign? && !tail)
  }

  function Canon(e: Expr, level: nat, tail: bool): Cst
    decreases e, 1
  {
    if NeedsBrackets(e, level, tail) then CParen(Bare(e, true)) else Bare(e, tail)
  }

  function Bare(e: Expr, tail: bool): Cst
    decreases e, 0
  {
    match e
    case IntLiteral(n) => CNumber(ShowInt(n))
    case Identifier(n) => CName(n)
    case Assign(n, v) => CAssign(n, Canon(v, LOGICAL, true))
    case FuncCall(n, args) => CCall(n, CanonArgs(args))
    case Binary(op, l, r) => CBinary(op, Canon(l, OpLevel(op), false), Canon(r, OpLevel(op) + 1, tail))
    case Unary(op, x) => CUnary(op, Canon(x, UNARY, tail))
  }

  function CanonArgs(args: seq<Expr>): Args
    decreases args
  {
    if args == [] then NoArgs else Arg(Canon(args[0], LOGICAL, true), |args| > 1, CanonArgs(args[1..]))
  }

  lemma {:induction false} CanonShape(e: Expr, level: nat, tail: bool)
    requires level <= PRIMARY
    ensures LevelOf(Canon(e, level, tail)) >= level
    ensures !tail ==> !OpenRight(Canon(e, level, tail))
    decreases e
  {
    hide OpLevel, CanonArgs;
    if !NeedsBrackets(e, level, tail) {
      match e
      case Binary(op, l, r) =>
        OpLevels(op);
        if OpLevel(op) < UNARY {
          CanonShape(r, OpLevel(op) + 1, tail);
        } else {
          OtherShape(r, tail);
        }
      case Unary(_, x) => CanonShape(x, UNARY, tail);
      case _ =>
    }
  }

  lemma {:induction false} OtherShape(e: Expr, tail: bool)
    ensures !tail ==> !OpenRight(Canon(e, NO_OPERATOR + 1, tail))
  {
  }

  // ---------- tokens ----------

  function Sym(k: TokenType): Token {
    Token(k, Spelling(k))
  }

  function Yield(d: Cst): (ts: seq<Token>)
    ensures |ts| == Width(d)
  {
    match d
    case CNumber(t) => [Token(NUMBER, t)]
    case CName(n) => [Token(IDENT, n)]
    case CAssign(n, v) => [Token(IDENT, n), Sym(EQ)] + Yield(v)
    case CCall(n, args) => [Token(IDENT, n), Sym(COLON)] + (YieldArgs(args) + [Sym(SEMICOLON)])
    case CParen(i) => [Sym(L_PAREN)] + (Yield(i) + [Sym(R_PAREN)])
    case CUnary(op, x) => [Sym(op)] + Yield(x)
    case CBinary(op, l, r) => Yield(l) + ([Sym(op)] + Yield(r))
  }

  function YieldArgs(args: Args): (ts: seq<Token>)
    ensures |ts| == ArgsWidth(args)
  {
    match args
    case NoArgs => []
    case Arg(f, comma, rest) => Yield(f) + ((if comma then [Sym(COMMA)] else []) + YieldArgs(rest))
  }

  function PrintExpr(e: Expr): seq<Token> {
    Yield(Canon(e, LOGICAL, true))
  }

  // ys stands in ts from p on.
  predicate Has(ts: seq<Token>, p: nat, ys: seq<Token>) {
    p + |ys| <= |ts| && ts[p..p + |ys|] == ys
  }

  lemma {:induction false} HasParts(ts: seq<Token>, p: nat, a: seq<Token>, b: seq<Token>)
    requires Has(ts, p, a + b)
    ensures Has(ts, p, a) && Has(ts, p + |a|, b)
  {
    var all := a + b;
    assert ts[p..p + |all|] == all;
    assert all[..|a|] == a && all[|a|..] == b;
    assert ts[p..p + |a|] == ts[p..p + |all|][..|a|];
    assert ts[p + |a|..p + |all|] == ts[p..p + |all|][|a|..];
  }

  lemma {:induction false} HasOne(ts: seq<Token>, p: nat, t: Token)
    requires Has(ts, p, [t])
    ensures p < |ts| && ts[p] == t
  {
    assert ts[p..p + 1][0] == t;
  }

  lemma {:induction false} HasTwo(ts: seq<Token>, p: nat, t: Token, u: Token, ys: seq<Token>)
    requires Has(ts, p, [t, u] + ys)
    ensures p + 2 <= |ts| && ts[p] == t && ts[p + 1] == u && Has(ts, p + 2, ys)
  {
    HasParts(ts, p, [t, u], ys);
    assert ts[p..p + 2][0] == t && ts[p..p + 2][1] == u;
  }

  lemma {:induction false} HasFirst(ts: seq<Token>, p: nat, t: Token, ys: seq<Token>)
    requires Has(ts, p, [t] + ys)
    ensures p < |ts| && ts[p] == t && Has(ts, p + 1, ys)
  {
    HasParts(ts, p, [t], ys);
    HasOne(ts, p, t);
  }

  lemma {:induction false} HasLast(ts: seq<Token>, p: nat, ys: seq<Token>, t: Token)
    requires Has(ts, p, ys + [t])
    ensures p + |ys| < |ts| && ts[p + |ys|] == t && Has(ts, p, ys)
  {
    HasParts(ts, p, ys, [t]);
    HasOne(ts, p + |ys|, t);
  }

  // ---------- the printed tokens derive the tree ----------

  lemma {:induction false} CanonFits(e: Expr, level: nat, tail: bool, ts: seq<Token>, p: nat)
    requires Buildable(e) && level <= PRIMARY && Has(ts, p, Yield(Canon(e, level, tail)))
    ensures Fits(Canon(e, level, tail), ts, p, e, p + Width(Canon(e, level, tail)))
    decreases e, 2
  {
    hide Fits, Has, Bare, Buildable, Yield, Width, NeedsBrackets, Canon;
    CanonUnfold(e, level, tail);
    if NeedsBrackets(e, level, tail) {
      var i := Bare(e, true);
      ParenTokens(i, ts, p);
      BareFits(e, true, ts, p + 1);
      FitsParen(i, ts, p, e, p + 1 + Width(i));
      FitsInside(CParen(i), ts, p, e, p + 2 + Width(i));
    } else {
      BareFits(e, tail, ts, p);
    }
  }

  lemma {:induction false} CanonUnfold(e: Expr, level: nat, tail: bool)
    ensures Canon(e, level, tail) == if NeedsBrackets(e, level, tail) then CParen(Bare(e, true)) else Bare(e, tail)
  {
  }

  lemma {:induction false} ParenTokens(i: Cst, ts: seq<Token>, p: nat)
    requires Has(ts, p, Yield(CParen(i)))
    ensures At(ts, p, L_PAREN) && Has(ts, p + 1, Yield(i)) && At(ts, p + 1 + Width(i), R_PAREN)
  {
    hide Has;
    HasFirst(ts, p, Sym(L_PAREN), Yield(i) + [Sym(R_PAREN)]);
    HasLast(ts, p + 1, Yield(i), Sym(R_PAREN));
  }

  lemma {:induction false} SymKind(k: TokenType)
    ensures Sym(k).kind == k
  {
  }

  lemma {:induction false} BareFits(e: Expr, tail: bool, ts: seq<Token>, p: nat)
    requires Buildable(e) && Has(ts, p, Yield(Bare(e, tail)))
    ensures Fits(Bare(e, tail), ts, p, e, p + Width(Bare(e, tail)))
    decreases e, 1
  {
    hide Fits, Has, Canon, OpLevel, Stoll, ShowInt, Sym, CanonArgs;
    match e
    case IntLiteral(n) =>
      HasOne(ts, p, Token(NUMBER, ShowInt(n)));
      DecimalRoundTrip(n);
      FitsNumber(ShowInt(n), ts, p, e);
    case Identifier(n) =>
      HasOne(ts, p, Token(IDENT, n));
      FitsName(n, ts, p, e);
    case Assign(n, v) => AssignFits(n, v, ts, p);
    case FuncCall(n, args) => CallFits(n, args, ts, p);
    case Binary(op, l, r) => BinaryFits(op, l, r, tail, ts, p);
    case Unary(op, x) => UnaryFits(op, x, tail, ts, p);
  }

  lemma {:induction false} AssignFits(n: string, v: Expr, ts: seq<Token>, p: nat)
    requires var d := CAssign(n, Canon(v, LOGICAL, true)); Buildable(v) && Has(ts, p, Yield(d))
    ensures var d := CAssign(n, Canon(v, LOGICAL, true)); Fits(d, ts, p, Assign(n, v), p + Width(d))
    decreases v, 3
  {
    hide Fits, Has, Canon, Spelling, Width, Buildable;
    var c := Canon(v, LOGICAL, true);
    HasTwo(ts, p, Token(IDENT, n), Sym(EQ), Yield(c));
    SymKind(EQ);
    CanonFits(v, LOGICAL, true, ts, p + 2);
    FitsAssign(n, c, ts, p, Assign(n, v), p + 2 + Width(c));
  }

  lemma {:induction false} CallFits(n: string, args: seq<Expr>, ts: seq<Token>, p: nat)
    requires var d := CCall(n, CanonArgs(args)); AllBuildable(args) && Has(ts, p, Yield(d))
    ensures var d := CCall(n, CanonArgs(args)); Fits(d, ts, p, FuncCall(n, args), p + Width(d))
    decreases args, 3
  {
    hide Fits, Has, CanonArgs, Sym, ArgsFit;
    var c := CanonArgs(args);
    HasTwo(ts, p, Token(IDENT, n), Sym(COLON), YieldArgs(c) + [Sym(SEMICOLON)]);
    HasLast(ts, p + 2, YieldArgs(c), Sym(SEMICOLON));
    SymKind(COLON);
    SymKind(SEMICOLON);
    CanonArgsFit(args, ts, p + 2);
    FitsCall(n, c, ts, p, FuncCall(n, args), p + 2 + ArgsWidth(c));
  }

  lemma {:induction false} CanonArgsFit(args: seq<Expr>, ts: seq<Token>, p: nat)
    requires AllBuildable(args) && Has(ts, p, YieldArgs(CanonArgs(args)))
    ensures ArgsFit(CanonArgs(args), ts, p, args, p + ArgsWidth(CanonArgs(args)))
    decreases args, 2
  {
    hide Fits, Canon, ArgsFit, Buildable, AllBuildable, Sym, Yield, YieldArgs, CanonArgs;
    if args == [] {
      NothingFits(ts, p);
    } else {
      hide Has;
      BuildableTail(args);
      var f, comma, rest := Canon(args[0], LOGICAL, true), |args| > 1, CanonArgs(args[1..]);
      ArgsUnfold(args);
      ArgTokens(f, comma, rest, ts, p);
      var m := p + Width(f);
      var n := if comma then m + 1 else m;
      CanonFits(args[0], LOGICAL, true, ts, p);
      CanonArgsFit(args[1..], ts, n);
      FitsArg(f, comma, rest, ts, p, args, n + ArgsWidth(rest));
    }
  }

  lemma {:induction false} NothingFits(ts: seq<Token>, p: nat)
    requires p <= |ts|
    ensures CanonArgs([]) == NoArgs && ArgsFit(NoArgs, ts, p, [], p)
  {
  }

  lemma {:induction false} ArgsUnfold(args: seq<Expr>)
    requires args != []
    ensures CanonArgs(args) == Arg(Canon(args[0], LOGICAL, true), |args| > 1, CanonArgs(args[1..]))
    ensures |args| == 1 ==> CanonArgs(args[1..]) == NoArgs
  {
    hide Canon;
  }

  lemma {:induction false} ArgTokens(f: Cst, comma: bool, rest: Args, ts: seq<Token>, p: nat)
    requires Has(ts, p, YieldArgs(Arg(f, comma, rest)))
    ensures var m := p + Width(f);
            Has(ts, p, Yield(f)) && (comma ==> At(ts, m, COMMA)) && Has(ts, if comma then m + 1 else m, YieldArgs(rest))
  {
    hide Has, Yield;
    var m, sep := p + Width(f), if comma then [Sym(COMMA)] else [];
    HasParts(ts, p, Yield(f), sep + YieldArgs(rest));
    HasParts(ts, m, sep, YieldArgs(rest));
    if comma {
      HasOne(ts, m, Sym(COMMA));
    }
  }

  lemma {:induction false} UnaryFits(op: TokenType, x: Expr, tail: bool, ts: seq<Token>, p: nat)
    requires var d := CUnary(op, Canon(x, UNARY, tail)); IsUnary(op) && Buildable(x) && Has(ts, p, Yield(d))
    ensures var d := CUnary(op, Canon(x, UNARY, tail)); Fits(d, ts, p, Unary(op, x), p + Width(d))
    decreases x, 3
  {
    hide Fits, Has, Canon, Yield;
    var c := Canon(x, UNARY, tail);
    UnaryTokens(op, c, ts, p);
    CanonFits(x, UNARY, tail, ts, p + 1);
    CanonShape(x, UNARY, tail);
    FitsUnary(op, c, ts, p, Unary(op, x), p + 1 + Width(c));
  }

  lemma {:induction false} UnaryTokens(op: TokenType, x: Cst, ts: seq<Token>, p: nat)
    requires Has(ts, p, Yield(CUnary(op, x)))
    ensures At(ts, p, op) && Has(ts, p + 1, Yield(x))
  {
    hide Has;
    HasFirst(ts, p, Sym(op), Yield(x));
  }

  lemma {:induction false} BinaryTokens(op: TokenType, l: Cst, r: Cst, ts: seq<Token>, p: nat)
    requires Has(ts, p, Yield(CBinary(op, l, r)))
    ensures Has(ts, p, Yield(l)) && At(ts, p + Width(l), op) && Has(ts, p + Width(l) + 1, Yield(r))
  {
    hide Has;
    HasParts(ts, p, Yield(l), [Sym(op)] + Yield(r));
    HasFirst(ts, p + Width(l), Sym(op), Yield(r));
  }

  lemma {:induction false} BinaryFits(op: TokenType, l: Expr, r: Expr, tail: bool, ts: seq<Token>, p: nat)
    requires var d := CBinary(op, Canon(l, OpLevel(op), false), Canon(r, OpLevel(op) + 1, tail));
             OpLevel(op) < UNARY && Buildable(l) && Buildable(r) && Has(ts, p, Yield(d))
    ensures var d := CBinary(op, Canon(l, OpLevel(op), false), Canon(r, OpLevel(op) + 1, tail));
            Fits(d, ts, p, Binary(op, l, r), p + Width(d))
    decreases Binary(op, l, r), 0
  {
    hide Fits, Has, Canon, OpLevel, Yield;
    var k := OpLevel(op);
    var a, b := Canon(l, k, false), Canon(r, k + 1, tail);
    BinaryTokens(op, a, b, ts, p);
    var m := p + Width(a);
    CanonFits(l, k, false, ts, p);
    CanonFits(r, k + 1, tail, ts, m + 1);
    CanonShape(l, k, false);
    CanonShape(r, k + 1, tail);
    FitsBinary(op, a, b, ts, p, Binary(op, l, r), m + 1 + Width(b));
  }

  // ---------- round trip ----------

  // Parsing the print of a tree, at any level and before any token that cannot extend it, gives
  // the tree back and stops exactly at that token.
  lemma {:induction false} PrintParse(e: Expr, level: nat, ts: seq<Token>, p: nat)
    requires Buildable(e) && level <= PRIMARY && Has(ts, p, Yield(Canon(e, level, true)))
    requires Stops(level, Canon(e, level, true), KindAt(ts, p + Width(Canon(e, level, true))))
    ensures p <= |ts| && ParseAt(level, ts, p) == Done(e, p + Width(Canon(e, level, true)))
  {
    hide Fits, Canon, Stops, ParseAt, Yield, LevelOf, Has, Buildable;
    CanonFits(e, level, true, ts, p);
    CanonShape(e, level, true);
    WholeComplete(level, Canon(e, level, true), ts, p, e, p + Width(Canon(e, level, true)));
  }

  // Everything the parser builds is Buildable.
  lemma {:induction false} FitsBuildable(d: Cst, ts: seq<Token>, p: nat, e: Expr, q: nat)
    requires Fits(d, ts, p, e, q)
    ensures Buildable(e)
    decreases d
  {
    hide OpLevel, LevelOf, OpenRight, Fits, ArgsFit, Stoll, IsUnary;
    FitsInside(d, ts, p, e, q);
    match d
    case CNumber(text) =>
      FitsNumber(text, ts, p, e);
      StollBound(text);
    case CName(n) => FitsName(n, ts, p, e);
    case CAssign(n, v) =>
      FitsAssign(n, v, ts, p, e, q);
      FitsBuildable(v, ts, p + 2, e.value, q);
    case CCall(n, args) =>
      FitsCall(n, args, ts, p, e, q - 1);
      ArgsBuildable(args, ts, p + 2, e.args, q - 1);
    case CParen(i) =>
      FitsParen(i, ts, p, e, q - 1);
      FitsBuildable(i, ts, p + 1, e, q - 1);
    case CUnary(op, x) =>
      FitsUnary(op, x, ts, p, e, q);
      FitsBuildable(x, ts, p + 1, e.operand, q);
    case CBinary(op, l, r) =>
      FitsBinary(op, l, r, ts, p, e, q);
      FitsBuildable(l, ts, p, e.left, p + Width(l));
      FitsBuildable(r, ts, p + Width(l) + 1, e.right, q);
  }

  lemma {:induction false} StollBound(t: string)
    ensures Stoll(t).Some? ==> -TWO63 <= Stoll(t).value < TWO63
  {
  }

  lemma {:induction false} ArgsBuildable(args: Args, ts: seq<Token>, p: nat, es: seq<Expr>, q: nat)
    requires ArgsFit(args, ts, p, es, q)
    ensures AllBuildable(es)
    decreases args
  {
    hide Fits, Buildable;
    match args
    case NoArgs =>
    case Arg(f, comma, rest) =>
      var m := p + Width(f);
      FitsBuildable(f, ts, p, es[0], m);
      ArgsBuildable(rest, ts, if comma then m + 1 else m, es[1..], q);
      forall k | 0 <= k < |es| ensures Buildable(es[k]) {
        if k > 0 {
          assert es[k] == es[1..][k - 1];
        }
      }
  }

  // ---------- the print is the shortest ----------

  lemma {:induction false} TailSlack(e: Expr, level: nat)
    requires level <= PRIMARY && Buildable(e)
    ensures Width(Canon(e, level, false)) <= Width(Canon(e, level, true)) + 2
    decreases e, 1
  {
    BareSlack(e);
  }

  lemma {:induction false} BareSlack(e: Expr)
    requires Buildable(e)
    ensures Width(Bare(e, false)) <= Width(Bare(e, true)) + 2
    decreases e, 0
  {
    hide Canon, CanonArgs, OpLevel;
    match e
    case Binary(op, l, r) => TailSlack(r, OpLevel(op) + 1);
    case Unary(_, x) => TailSlack(x, UNARY);
    case _ =>
  }

  lemma {:induction false} BracketSlack(e: Expr, level: nat, tail: bool)
    requires level <= PRIMARY && Buildable(e)
    ensures Width(Canon(e, level, tail)) <= Width(Canon(e, LOGICAL, true)) + 2
  {
    BareSlack(e);
  }

  // No derivation of e has fewer tokens than the canonical one.
  lemma {:induction false} CanonShortest(d: Cst, level: nat, tail: bool, ts: seq<Token>, p: nat, e: Expr, q: nat)
    requires level <= PRIMARY && Fits(d, ts, p, e, q) && level <= LevelOf(d) && (!tail ==> !OpenRight(d))
    ensures Width(Canon(e, level, tail)) <= Width(d)
    decreases d, 1
  {
    hide OpLevel, ArgsFit, Canon, Bare, Fits, IsUnary, LevelOf, OpenRight, Width;
    FitsInside(d, ts, p, e, q);
    match d
    case CNumber(_) => LeafShortest(d, level, tail, ts, p, e, q);
    case CName(_) => LeafShortest(d, level, tail, ts, p, e, q);
    case CAssign(n, v) => AssignShortest(n, v, level, tail, ts, p, e, q);
    case CCall(n, args) =>
      FitsCall(n, args, ts, p, e, q - 1);
      ArgsShortest(args, ts, p + 2, e.args, q - 1);
      OtherWidth(e, level, tail);
      CallWidth(e, tail);
      assert Width(CCall(n, args)) == 3 + ArgsWidth(args) by {
        WidthOfCall(n, args);
      }
    case CParen(i) => ParenShortest(i, level, tail, ts, p, e, q);
    case CUnary(op, x) => UnaryShortest(op, x, level, tail, ts, p, e, q);
    case CBinary(op, l, r) => BinaryShortest(op, l, r, level, tail, ts, p, e, q);
  }

  lemma {:induction false} LeafShortest(d: Cst, level: nat, tail: bool, ts: seq<Token>, p: nat, e: Expr, q: nat)
    requires level <= PRIMARY && (d.CNumber? || d.CName?) && Fits(d, ts, p, e, q)
    ensures Width(Canon(e, level, tail)) <= Width(d)
  {
    hide Canon, Bare, Stoll;
    OtherWidth(e, level, tail);
    LeafWidth(e, tail);
  }

  lemma {:induction false} WidthOfCall(n: string, args: Args)
    ensures Width(CCall(n, args)) == 3 + ArgsWidth(args)
  {
  }

  lemma {:induction false} AssignShortest(n: string, v: Cst, level: nat, tail: bool, ts: seq<Token>, p: nat, e: Expr,
                                          q: nat)
    requires level <= PRIMARY && Fits(CAssign(n, v), ts, p, e, q) && (!tail ==> !OpenRight(CAssign(n, v)))
    ensures Width(Canon(e, level, tail)) <= Width(CAssign(n, v))
    decreases CAssign(n, v), 0
  {
    hide Canon, Bare, Fits;
    FitsAssign(n, v, ts, p, e, q);
    CanonShortest(v, LOGICAL, true, ts, p + 2, e.value, q);
    OtherWidth(e, level, tail);
    AssignWidth(e, tail);
  }

  lemma {:induction false} ParenShortest(i: Cst, level: nat, tail: bool, ts: seq<Token>, p: nat, e: Expr, q: nat)
    requires level <= PRIMARY && q > 0 && Fits(CParen(i), ts, p, e, q)
    ensures Width(Canon(e, level, tail)) <= Width(CParen(i))
    decreases CParen(i), 0
  {
    hide Canon, Fits, Buildable, OpenRight;
    FitsParen(i, ts, p, e, q - 1);
    FitsBuildable(i, ts, p + 1, e, q - 1);
    BracketSlack(e, level, tail);
    CanonShortest(i, LOGICAL, true, ts, p + 1, e, q - 1);
  }

  lemma {:induction false} UnaryShortest(op: TokenType, x: Cst, level: nat, tail: bool, ts: seq<Token>, p: nat,
                                         e: Expr, q: nat)
    requires level <= LevelOf(CUnary(op, x)) && Fits(CUnary(op, x), ts, p, e, q) &&
             (!tail ==> !OpenRight(CUnary(op, x)))
    ensures Width(Canon(e, level, tail)) <= Width(CUnary(op, x))
    decreases CUnary(op, x), 0
  {
    hide Canon, Fits, IsUnary;
    FitsUnary(op, x, ts, p, e, q);
    CanonShortest(x, UNARY, tail, ts, p + 1, e.operand, q);
    UnaryWidth(e, level, tail);
  }

  lemma {:induction false} BinaryShortest(op: TokenType, l: Cst, r: Cst, level: nat, tail: bool, ts: seq<Token>,
                                          p: nat, e: Expr, q: nat)
    requires level <= LevelOf(CBinary(op, l, r)) && Fits(CBinary(op, l, r), ts, p, e, q) &&
             (!tail ==> !OpenRight(CBinary(op, l, r)))
    ensures Width(Canon(e, level, tail)) <= Width(CBinary(op, l, r))
    decreases CBinary(op, l, r), 0
  {
    hide Canon, Fits, OpLevel;
    FitsBinary(op, l, r, ts, p, e, q);
    CanonShortest(l, OpLevel(op), false, ts, p, e.left, p + Width(l));
    CanonShortest(r, OpLevel(op) + 1, tail, ts, p + Width(l) + 1, e.right, q);
    BinaryWidth(e, level, tail);
  }

  lemma {:induction false} UnaryWidth(e: Expr, level: nat, tail: bool)
    requires e.Unary? && level <= UNARY
    ensures Width(Canon(e, level, tail)) == 1 + Width(Canon(e.operand, UNARY, tail))
  {
    CanonUnfold(e, level, tail);
  }

  lemma {:induction false} BinaryWidth(e: Expr, level: nat, tail: bool)
    requires e.Binary? && level <= OpLevel(e.op)
    ensures Width(Canon(e, level, tail)) ==
            Width(Canon(e.left, OpLevel(e.op), false)) + 1 + Width(Canon(e.right, OpLevel(e.op) + 1, tail))
  {
    CanonUnfold(e, level, tail);
  }

  lemma {:induction false} LeafWidth(e: Expr, tail: bool)
    requires e.IntLiteral? || e.Identifier?
    ensures Width(Bare(e, tail)) == 1
  {
  }

  lemma {:induction false} AssignWidth(e: Expr, tail: bool)
    requires e.Assign?
    ensures Width(Bare(e, tail)) == 2 + Width(Canon(e.value, LOGICAL, true))
  {
  }

  lemma {:induction false} CallWidth(e: Expr, tail: bool)
    requires e.FuncCall?
    ensures Width(Bare(e, tail)) == 3 + ArgsWidth(CanonArgs(e.args))
  {
  }

  lemma {:induction false} OtherWidth(e: Expr, level: nat, tail: bool)
    requires level <= PRIMARY && ExprLevel(e) == PRIMARY && !e.Binary? && (e.Assign? ==> tail)
    ensures Width(Canon(e, level, tail)) == Width(Bare(e, tail))
  {
    CanonUnfold(e, level, tail);
  }

  lemma {:induction false} ArgsShortest(args: Args, ts: seq<Token>, p: nat, es: seq<Expr>, q: nat)
    requires ArgsFit(args, ts, p, es, q)
    ensures ArgsWidth(CanonArgs(es)) <= ArgsWidth(args)
    decreases args
  {
    hide Fits, Canon, LevelOf, OpenRight;
    match args
    case NoArgs =>
    case Arg(f, comma, rest) =>
      var m := p + Width(f);
      FitsArg(f, comma, rest, ts, p, es, q);
      CanonShortest(f, LOGICAL, true, ts, p, es[0], m);
      ArgsShortest(rest, ts, if comma then m + 1 else m, es[1..], q);
  }

  // Whatever tokens parse to e, the print of e is not longer.
  lemma {:induction false} PrintShortest(ts: seq<Token>, p: nat, e: Expr, q: nat)
    requires p <= |ts| && ParseAt(LOGICAL, ts, p) == Done(e, q)
    ensures Buildable(e) && |PrintExpr(e)| <= q - p
  {
    hide Fits, ParseAt, Canon, Stops;
    var d := ParseSound(LOGICAL, ts, p);
    FitsBuildable(d, ts, p, e, q);
    FitsInside(d, ts, p, e, q);
    CanonShortest(d, LOGICAL, true, ts, p, e, q);
  }
}
