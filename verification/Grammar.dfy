// The stratified grammar the parser implements, stated without it: derivations, the tokens
// they cover, the trees they stand for; and that parsing finds exactly the derivations.
module Grammar {
  import opened Wrappers
  import opened Tokens
  import opened Ast
  import opened Numerals
  import opened Parsing

  // A derivation of an expression.
  datatype Cst =
    | CNumber(text: string)
    | CName(name: string)
    | CAssign(name: string, value: Cst)
    | CCall(name: string, args: Args)
    | CParen(inner: Cst)
    | CUnary(op: TokenType, operand: Cst)
    | CBinary(op: TokenType, left: Cst, right: Cst)

  // Arguments; a comma after each, and after the last one if one likes.
  datatype Args = NoArgs | Arg(first: Cst, comma: bool, rest: Args)

  // ---------- grammatical derivations ----------

  function LevelOf(d: Cst): nat {
    match d
    case CBinary(op, _, _) => OpLevel(op)
    case CUnary(_, _) => UNARY
    case _ => PRIMARY
  }

  // Ends in an assignment without brackets: everything that follows would belong to its value.
  predicate OpenRight(d: Cst) {
    match d
    case CAssign(_, _) => true
    case CUnary(_, x) => OpenRight(x)
    case CBinary(_, _, r) => OpenRight(r)
    case _ => false
  }

  // Ends in a name: a colon or an equals sign that follows would belong to it.
  predicate EndsInName(d: Cst) {
    match d
    case CName(_) => true
    case CAssign(_, v) => EndsInName(v)
    case CUnary(_, x) => EndsInName(x)
    case CBinary(_, _, r) => EndsInName(r)
    case _ => false
  }

  // ---------- the grammar ----------

  lemma {:induction false} OpLevels(k: TokenType)
    ensures OpLevel(k) < UNARY || OpLevel(k) == NO_OPERATOR
  {
  }

  // How many tokens d covers.
  function Width(d: Cst): (n: nat)
    ensures n > 0
  {
    match d
    case CNumber(_) => 1
    case CName(_) => 1
    case CAssign(_, v) => 2 + Width(v)
    case CCall(_, args) => 3 + ArgsWidth(args)
    case CParen(i) => 2 + Width(i)
    case CUnary(_, x) => 1 + Width(x)
    case CBinary(_, l, r) => Width(l) + 1 + Width(r)
  }

  function ArgsWidth(args: Args): nat {
    match args
    case NoArgs => 0
    case Arg(f, comma, rest) => Width(f) + (if comma then 1 else 0) + ArgsWidth(rest)
  }

  // d derives the tree e from the tokens at p up to q.  Chains are left-associative: the right
  // operand is of a higher level than the operator, and no left operand absorbs what follows.
  predicate Fits(d: Cst, ts: seq<Token>, p: nat, e: Expr, q: nat)
    decreases d
  {
    q == p + Width(d) && q <= |ts| &&
    match d
    case CNumber(t) => ts[p] == Token(NUMBER, t) && Stoll(t).Some? && e == IntLiteral(Stoll(t).value)
    case CName(n) => ts[p] == Token(IDENT, n) && e == Identifier(n)
    case CAssign(n, v) =>
      ts[p] == Token(IDENT, n) && At(ts, p + 1, EQ) &&
      e.Assign? && e.name == n && Fits(v, ts, p + 2, e.value, q)
    case CCall(n, args) =>
      ts[p] == Token(IDENT, n) && At(ts, p + 1, COLON) && At(ts, q - 1, SEMICOLON) &&
      e.FuncCall? && e.name == n && ArgsFit(args, ts, p + 2, e.args, q - 1)
    case CParen(i) =>
      At(ts, p, L_PAREN) && At(ts, q - 1, R_PAREN) && Fits(i, ts, p + 1, e, q - 1)
    case CUnary(op, x) =>
      At(ts, p, op) && IsUnary(op) && LevelOf(x) >= UNARY &&
      e.Unary? && e.op == op && Fits(x, ts, p + 1, e.operand, q)
    case CBinary(op, l, r) =>
      var m := p + Width(l);
      At(ts, m, op) && OpLevel(op) < UNARY && LevelOf(l) >= OpLevel(op) && LevelOf(r) > OpLevel(op) && !OpenRight(l) &&
      e.Binary? && e.op == op && Fits(l, ts, p, e.left, m) && Fits(r, ts, m + 1, e.right, q)
  }

  // A comma after each argument but perhaps the last.
  predicate ArgsFit(args: Args, ts: seq<Token>, p: nat, es: seq<Expr>, q: nat)
    decreases args
  {
    q == p + ArgsWidth(args) && q <= |ts| &&
    match args
    case NoArgs => es == []
    case Arg(f, comma, rest) =>
      var m := p + Width(f);
      es != [] && (comma || rest.NoArgs?) && (comma ==> At(ts, m, COMMA)) &&
      Fits(f, ts, p, es[0], m) && ArgsFit(rest, ts, if comma then m + 1 else m, es[1..], q)
  }

  // The grammar, one production at a time.
  lemma {:induction false} FitsNumber(text: string, ts: seq<Token>, p: nat, e: Expr)
    ensures Fits(CNumber(text), ts, p, e, p + 1) <==>
              p < |ts| && ts[p] == Token(NUMBER, text) && Stoll(text).Some? && e == IntLiteral(Stoll(text).value)
  {
    hide Stoll;
  }

  lemma {:induction false} FitsName(n: string, ts: seq<Token>, p: nat, e: Expr)
    ensures Fits(CName(n), ts, p, e, p + 1) <==> p < |ts| && ts[p] == Token(IDENT, n) && e == Identifier(n)
  {
  }

  lemma {:induction false} FitsUnary(op: TokenType, x: Cst, ts: seq<Token>, p: nat, e: Expr, q: nat)
    ensures Fits(CUnary(op, x), ts, p, e, q) <==>
              At(ts, p, op) && IsUnary(op) && LevelOf(x) >= UNARY && e.Unary? && e.op == op &&
              Fits(x, ts, p + 1, e.operand, q)
  {
    hide LevelOf, OpLevel, OpenRight, Stoll, IsUnary, ArgsFit;
  }

  lemma {:induction false} FitsBinary(op: TokenType, l: Cst, r: Cst, ts: seq<Token>, p: nat, e: Expr, q: nat)
    ensures Fits(CBinary(op, l, r), ts, p, e, q) <==>
              var m := p + Width(l);
              At(ts, m, op) && OpLevel(op) < UNARY && LevelOf(l) >= OpLevel(op) && LevelOf(r) > OpLevel(op) &&
              !OpenRight(l) &&
              e.Binary? && e.op == op && Fits(l, ts, p, e.left, m) && Fits(r, ts, m + 1, e.right, q)
  {
    hide LevelOf, OpLevel, OpenRight, Stoll, IsUnary, ArgsFit, At, ArgsWidth;
  }

  lemma {:induction false} FitsParen(i: Cst, ts: seq<Token>, p: nat, e: Expr, q: nat)
    ensures Fits(CParen(i), ts, p, e, q + 1) <==> At(ts, p, L_PAREN) && At(ts, q, R_PAREN) && Fits(i, ts, p + 1, e, q)
  {
    hide LevelOf, OpLevel, OpenRight, Stoll, IsUnary, ArgsFit;
  }

  lemma {:induction false} FitsAssign(n: string, v: Cst, ts: seq<Token>, p: nat, e: Expr, q: nat)
    ensures Fits(CAssign(n, v), ts, p, e, q) <==>
              p < |ts| && ts[p] == Token(IDENT, n) && At(ts, p + 1, EQ) && e.Assign? && e.name == n &&
              Fits(v, ts, p + 2, e.value, q)
  {
    hide LevelOf, OpLevel, OpenRight, Stoll, IsUnary, ArgsFit;
  }

  lemma {:induction false} FitsCall(n: string, args: Args, ts: seq<Token>, p: nat, e: Expr, q: nat)
    ensures Fits(CCall(n, args), ts, p, e, q + 1) <==>
              p < |ts| && ts[p] == Token(IDENT, n) && At(ts, p + 1, COLON) && At(ts, q, SEMICOLON) &&
              e.FuncCall? && e.name == n && ArgsFit(args, ts, p + 2, e.args, q)
  {
    hide LevelOf, OpLevel, OpenRight, Stoll, IsUnary;
  }

  lemma {:induction false} FitsArg(f: Cst, comma: bool, rest: Args, ts: seq<Token>, p: nat, es: seq<Expr>, q: nat)
    ensures ArgsFit(Arg(f, comma, rest), ts, p, es, q) <==>
              var m := p + Width(f);
              es != [] && (comma || rest.NoArgs?) && (comma ==> At(ts, m, COMMA)) &&
              Fits(f, ts, p, es[0], m) && ArgsFit(rest, ts, if comma then m + 1 else m, es[1..], q)
  {
    hide LevelOf, OpLevel, OpenRight, Stoll, IsUnary, Fits;
  }

  lemma {:induction false} LevelBound(d: Cst, ts: seq<Token>, p: nat, e: Expr, q: nat)
    requires Fits(d, ts, p, e, q)
    ensures LevelOf(d) <= PRIMARY
  {
    hide Stoll;
  }

  lemma {:induction false} FitsInside(d: Cst, ts: seq<Token>, p: nat, e: Expr, q: nat)
    requires Fits(d, ts, p, e, q)
    ensures p < q <= |ts| && q == p + Width(d)
  {
  }

  // ---------- what may follow ----------

  predicate IsOpFrom(level: nat, k: TokenType) {
    level <= OpLevel(k) < UNARY
  }

  // A token of kind k after d does not belong to an expression of this level that d starts.
  predicate Stops(level: nat, d: Cst, k: TokenType) {
    !IsOpFrom(if OpenRight(d) then LOGICAL else level, k) && (EndsInName(d) ==> k != COLON && k != EQ)
  }

  lemma {:induction false} StopsHigher(level: nat, d: Cst, k: TokenType)
    requires level < UNARY && Stops(level, d, k)
    ensures Stops(level + 1, d, k) && OpLevel(k) != level
  {
    hide OpenRight, EndsInName, OpLevel;
  }

  // d is a derivation of this level, and ends before a token that cannot extend it.
  predicate Derives(level: nat, d: Cst, ts: seq<Token>, p: nat, e: Expr, q: nat) {
    Fits(d, ts, p, e, q) && level <= LevelOf(d) && Stops(level, d, KindAt(ts, q))
  }

  // ---------- every derivation is found ----------

  lemma {:induction false} FirstToken(d: Cst, ts: seq<Token>, p: nat, e: Expr, q: nat)
    requires Fits(d, ts, p, e, q)
    ensures p < |ts| && ts[p].kind != SEMICOLON
    ensures LevelOf(d) == PRIMARY ==> !IsUnary(ts[p].kind)
  {
    hide Fits, OpLevel, Width, OpenRight, IsUnary;
    if d.CBinary? {
      OpLevels(d.op);
      FitsBinary(d.op, d.left, d.right, ts, p, e, q);
      FirstToken(d.left, ts, p, e.left, p + Width(d.left));
    } else {
      FirstOther(d, ts, p, e, q);
    }
  }

  lemma {:induction false} FirstOther(d: Cst, ts: seq<Token>, p: nat, e: Expr, q: nat)
    requires Fits(d, ts, p, e, q) && !d.CBinary?
    ensures p < |ts| && ts[p].kind != SEMICOLON
    ensures LevelOf(d) == PRIMARY ==> !IsUnary(ts[p].kind)
  {
    hide OpenRight, Stoll, ArgsFit, OpLevel;
  }

  lemma {:induction false} ParseComplete(level: nat, d: Cst, ts: seq<Token>, p: nat, e: Expr, q: nat)
    requires level <= PRIMARY && Fits(d, ts, p, e, q) && level <= LevelOf(d) && Stops(level + 1, d, KindAt(ts, q))
    ensures q <= |ts|
    ensures level < UNARY ==> ParseAt(level, ts, p) == ParseLoop(level, e, ts, q)
    ensures level >= UNARY ==> ParseAt(level, ts, p) == Done(e, q)
    decreases d, 8 - level
  {
    hide Fits, ParseAt, ParseLoop, Stops, LevelOf, OpLevel, IsUnary;
    FitsInside(d, ts, p, e, q);
    LevelBound(d, ts, p, e, q);
    if level == PRIMARY {
      PrimaryComplete(d, ts, p, e, q);
    } else if level < LevelOf(d) {
      FirstToken(d, ts, p, e, q);
      if level == UNARY {
        NoOperatorLevel(d, KindAt(ts, q));
        ParseComplete(PRIMARY, d, ts, p, e, q);
        UnaryStep(ts, p);
      } else {
        AtStep(level, level + 1, ts, p);
        if level + 1 < UNARY {
          StopsHigher(level + 1, d, KindAt(ts, q));
          ParseComplete(level + 1, d, ts, p, e, q);
          LoopEnd(level + 1, e, ts, q);
        } else {
          NoOperatorLevel(d, KindAt(ts, q));
          ParseComplete(UNARY, d, ts, p, e, q);
        }
      }
    } else if level == UNARY {
      UnaryComplete(d, ts, p, e, q);
    } else {
      ChainComplete(level, d, ts, p, e, q);
    }
  }

  // Above the binary operators, only names and open assignments restrict what follows.
  lemma {:induction false} NoOperatorLevel(d: Cst, k: TokenType)
    ensures Stops(UNARY, d, k) <==> Stops(PRIMARY, d, k)
    ensures Stops(PRIMARY, d, k) <==> Stops(PRIMARY + 1, d, k)
  {
    hide OpenRight, EndsInName, OpLevel;
  }

  lemma {:induction false} WholeComplete(level: nat, d: Cst, ts: seq<Token>, p: nat, e: Expr, q: nat)
    requires level <= PRIMARY && Derives(level, d, ts, p, e, q)
    ensures q <= |ts| && ParseAt(level, ts, p) == Done(e, q)
    decreases d, 9
  {
    hide Fits, ParseAt, ParseLoop, Stops, LevelOf, OpLevel;
    NoOperatorLevel(d, KindAt(ts, q));
    if level < UNARY {
      StopsHigher(level, d, KindAt(ts, q));
      ParseComplete(level, d, ts, p, e, q);
      LoopEnd(level, e, ts, q);
    } else {
      ParseComplete(level, d, ts, p, e, q);
    }
  }

  lemma {:induction false} UnaryComplete(d: Cst, ts: seq<Token>, p: nat, e: Expr, q: nat)
    requires Fits(d, ts, p, e, q) && LevelOf(d) == UNARY && Stops(UNARY + 1, d, KindAt(ts, q)) && p <= |ts|
    ensures ParseAt(UNARY, ts, p) == Done(e, q)
    decreases d, 0
  {
    hide Fits, ParseAt, OpLevel;
    if d.CBinary? {
      OpLevels(d.op);
    }
    FitsUnary(d.op, d.operand, ts, p, e, q);
    UnaryStep(ts, p);
    ParseComplete(UNARY, d.operand, ts, p + 1, e.operand, q);
  }

  lemma {:induction false} ChainComplete(level: nat, d: Cst, ts: seq<Token>, p: nat, e: Expr, q: nat)
    requires level < UNARY && Fits(d, ts, p, e, q) && level == LevelOf(d) && Stops(level + 1, d, KindAt(ts, q)) &&
             q <= |ts|
    ensures ParseAt(level, ts, p) == ParseLoop(level, e, ts, q)
    decreases d, 0
  {
    hide Fits, ParseAt, ParseLoop, Width;
    var op, l, r := d.op, d.left, d.right;
    FitsBinary(op, l, r, ts, p, e, q);
    var m := p + Width(l);
    ParseComplete(level, l, ts, p, e.left, m);
    WholeComplete(level + 1, r, ts, m + 1, e.right, q);
    LoopStep(level, level + 1, e.left, ts, m);
  }

  lemma {:induction false} PrimaryComplete(d: Cst, ts: seq<Token>, p: nat, e: Expr, q: nat)
    requires Fits(d, ts, p, e, q) && LevelOf(d) == PRIMARY && Stops(PRIMARY + 1, d, KindAt(ts, q)) && q <= |ts|
    ensures p <= |ts| && ParseAt(PRIMARY, ts, p) == Done(e, q)
    decreases d, 1
  {
    hide ParseAt, ArgsFit, Fits, OpLevel, Stops, Width;
    FitsInside(d, ts, p, e, q);
    match d
    case CNumber(_) => LeafComplete(d, ts, p, e, q);
    case CName(_) => LeafComplete(d, ts, p, e, q);
    case CAssign(n, v) => AssignComplete(n, v, ts, p, e, q);
    case CCall(n, args) => CallComplete(n, args, ts, p, e, q);
    case CParen(i) => ParenComplete(i, ts, p, e, q);
    case CBinary(op, _, _) => OpLevels(op);
  }

  lemma {:induction false} AssignComplete(n: string, v: Cst, ts: seq<Token>, p: nat, e: Expr, q: nat)
    requires Fits(CAssign(n, v), ts, p, e, q) && Stops(PRIMARY + 1, CAssign(n, v), KindAt(ts, q))
    ensures p <= |ts| && ParseAt(PRIMARY, ts, p) == Done(e, q)
    decreases CAssign(n, v), 0
  {
    hide ParseAt, Fits, OpLevel;
    FitsAssign(n, v, ts, p, e, q);
    WholeComplete(LOGICAL, v, ts, p + 2, e.value, q);
    PrimaryStep(ts, p);
  }

  lemma {:induction false} CallComplete(n: string, args: Args, ts: seq<Token>, p: nat, e: Expr, q: nat)
    requires q > 0 && Fits(CCall(n, args), ts, p, e, q)
    ensures p <= |ts| && ParseAt(PRIMARY, ts, p) == Done(e, q)
    decreases CCall(n, args), 0
  {
    hide ParseAt, ParseArgs, Fits, ArgsFit;
    FitsCall(n, args, ts, p, e, q - 1);
    ArgsComplete([], args, ts, p + 2, e.args, q - 1);
    PrimaryStep(ts, p);
    assert [] + e.args == e.args;
  }

  lemma {:induction false} ParenComplete(i: Cst, ts: seq<Token>, p: nat, e: Expr, q: nat)
    requires q > 0 && Fits(CParen(i), ts, p, e, q)
    ensures p <= |ts| && ParseAt(PRIMARY, ts, p) == Done(e, q)
    decreases CParen(i), 0
  {
    hide ParseAt, Fits, Stops, LevelOf;
    FitsParen(i, ts, p, e, q - 1);
    BracketStops(i, R_PAREN);
    WholeComplete(LOGICAL, i, ts, p + 1, e, q - 1);
    PrimaryStep(ts, p);
  }

  lemma {:induction false} BracketStops(d: Cst, k: TokenType)
    requires k == R_PAREN || k == COMMA || k == SEMICOLON || k == L_CURL_BRKT || k == R_CURL_BRKT
    ensures Stops(LOGICAL, d, k)
  {
    hide OpenRight, EndsInName;
  }

  lemma {:induction false} LeafComplete(d: Cst, ts: seq<Token>, p: nat, e: Expr, q: nat)
    requires Fits(d, ts, p, e, q) && (d.CNumber? || d.CName?) && Stops(PRIMARY + 1, d, KindAt(ts, q))
    ensures p <= |ts| && ParseAt(PRIMARY, ts, p) == Done(e, q)
  {
    hide ParseAt, Stoll;
    PrimaryStep(ts, p);
  }

  lemma {:induction false} ArgsComplete(before: seq<Expr>, args: Args, ts: seq<Token>, p: nat, es: seq<Expr>, q: nat)
    requires ArgsFit(args, ts, p, es, q) && At(ts, q, SEMICOLON)
    ensures p <= |ts| && ParseArgs(before, ts, p) == Done(before + es, q + 1)
    decreases args
  {
    hide ParseAt, ParseArgs, Fits, Stops, LevelOf, OpLevel, Width, IsUnary;
    if args.NoArgs? {
      assert before + es == before;
      ArgsStep(before, ts, p);
    } else {
      var f := args.first;
      FitsArg(f, args.comma, args.rest, ts, p, es, q);
      hide ArgsFit;
      var m := p + Width(f);
      FirstToken(f, ts, p, es[0], m);
      LastArg(args.rest, ts, m, es[1..], q);
      BracketStops(f, KindAt(ts, m));
      WholeComplete(LOGICAL, f, ts, p, es[0], m);
      ArgsComplete(before + [es[0]], args.rest, ts, if args.comma then m + 1 else m, es[1..], q);
      ArgsStep(before, ts, p);
      Regroup(before, es);
    }
  }

  lemma {:induction false} Regroup(before: seq<Expr>, es: seq<Expr>)
    requires es != []
    ensures before + [es[0]] + es[1..] == before + es
  {
  }

  // With no argument left, the arguments end where they start.
  lemma {:induction false} LastArg(args: Args, ts: seq<Token>, p: nat, es: seq<Expr>, q: nat)
    ensures args.NoArgs? && ArgsFit(args, ts, p, es, q) ==> q == p
  {
  }

  // ---------- whatever is found is a derivation ----------

  lemma {:induction false} ParseSound(level: nat, ts: seq<Token>, p: nat) returns (d: Cst)
    requires level <= PRIMARY && p <= |ts| && ParseAt(level, ts, p).Done?
    ensures Derives(level, d, ts, p, ParseAt(level, ts, p).value, ParseAt(level, ts, p).next)
    decreases |ts| - p, 2 * (6 - level)
  {
    hide Fits, ParseLoop, ParseAt;
    if level == PRIMARY {
      d := PrimarySound(ts, p);
    } else if level == UNARY {
      d := UnarySound(ts, p);
    } else {
      AtStep(level, level + 1, ts, p);
      var l := ParseSound(level + 1, ts, p);
      var left := ParseAt(level + 1, ts, p);
      d := LoopSound(level, l, ts, p, left.value, left.next);
    }
  }

  lemma {:induction false} UnarySound(ts: seq<Token>, p: nat) returns (d: Cst)
    requires p <= |ts| && ParseAt(UNARY, ts, p).Done?
    ensures Derives(UNARY, d, ts, p, ParseAt(UNARY, ts, p).value, ParseAt(UNARY, ts, p).next)
    decreases |ts| - p, 3
  {
    hide Fits, ParseAt;
    UnaryStep(ts, p);
    if IsUnary(KindAt(ts, p)) {
      var x := ParseSound(UNARY, ts, p + 1);
      var r := ParseAt(UNARY, ts, p + 1);
      d := CUnary(ts[p].kind, x);
      FitsUnary(ts[p].kind, x, ts, p, Unary(ts[p].kind, r.value), r.next);
    } else {
      d := ParseSound(PRIMARY, ts, p);
    }
  }

  lemma {:induction false} LoopSound(level: nat, l: Cst, ts: seq<Token>, p: nat, left: Expr, m: nat) returns (d: Cst)
    requires level < UNARY && Fits(l, ts, p, left, m) && level <= LevelOf(l) && Stops(level + 1, l, KindAt(ts, m))
    requires p < m <= |ts| && ParseLoop(level, left, ts, m).Done?
    ensures var r := ParseLoop(level, left, ts, m); Derives(level, d, ts, p, r.value, r.next)
    decreases |ts| - m, 0
  {
    hide ParseAt, ParseLoop, Fits, OpLevel;
    if OpLevel(KindAt(ts, m)) == level {
      LoopStep(level, level + 1, left, ts, m);
      var r := ParseSound(level + 1, ts, m + 1);
      var right := ParseAt(level + 1, ts, m + 1);
      var op := ts[m].kind;
      FitsInside(l, ts, p, left, m);
      FitsBinary(op, l, r, ts, p, Binary(op, left, right.value), right.next);
      d := LoopSound(level, CBinary(op, l, r), ts, p, Binary(op, left, right.value), right.next);
    } else {
      LoopEnd(level, left, ts, m);
      d := l;
    }
  }

  lemma {:induction false} PrimarySound(ts: seq<Token>, p: nat) returns (d: Cst)
    requires p <= |ts| && ParseAt(PRIMARY, ts, p).Done?
    ensures Derives(PRIMARY, d, ts, p, ParseAt(PRIMARY, ts, p).value, ParseAt(PRIMARY, ts, p).next)
    decreases |ts| - p, 1
  {
    hide ParseArgs, ParseAt, ArgsFit, Fits, Stoll, OpLevel, IsUnary;
    PrimaryStep(ts, p);
    var r, text := ParseAt(PRIMARY, ts, p), ts[p].content;
    if KindAt(ts, p) == NUMBER {
      d := CNumber(text);
      FitsNumber(text, ts, p, r.value);
    } else if KindAt(ts, p) == L_PAREN {
      d := ParenSound(ts, p);
    } else if KindAt(ts, p + 1) == COLON {
      d := CallSound(ts, p);
    } else if KindAt(ts, p + 1) == EQ {
      d := AssignSound(ts, p);
    } else {
      d := CName(text);
      FitsName(text, ts, p, r.value);
    }
    NoOperatorLevel(d, KindAt(ts, r.next));
  }

  lemma {:induction false} ParenSound(ts: seq<Token>, p: nat) returns (d: Cst)
    requires At(ts, p, L_PAREN) && ParseAt(PRIMARY, ts, p).Done?
    ensures Derives(PRIMARY, d, ts, p, ParseAt(PRIMARY, ts, p).value, ParseAt(PRIMARY, ts, p).next)
    decreases |ts| - p, 0
  {
    hide ParseAt, Fits, Stops;
    PrimaryStep(ts, p);
    var r := ParseAt(PRIMARY, ts, p);
    var i := ParseSound(LOGICAL, ts, p + 1);
    d := CParen(i);
    FitsParen(i, ts, p, r.value, r.next - 1);
    ClosedStops(d, KindAt(ts, r.next));
  }

  lemma {:induction false} CallSound(ts: seq<Token>, p: nat) returns (d: Cst)
    requires At(ts, p, IDENT) && At(ts, p + 1, COLON) && ParseAt(PRIMARY, ts, p).Done?
    ensures Derives(PRIMARY, d, ts, p, ParseAt(PRIMARY, ts, p).value, ParseAt(PRIMARY, ts, p).next)
    decreases |ts| - p, 0
  {
    hide ParseArgs, ParseAt, ArgsFit, Fits, Stops;
    PrimaryStep(ts, p);
    var r, text := ParseAt(PRIMARY, ts, p), ts[p].content;
    var args := ArgsSound([], ts, p + 2, r.value.args, r.next);
    assert r.value.args[0..] == r.value.args;
    d := CCall(text, args);
    FitsCall(text, args, ts, p, r.value, r.next - 1);
    ClosedStops(d, KindAt(ts, r.next));
  }

  lemma {:induction false} AssignSound(ts: seq<Token>, p: nat) returns (d: Cst)
    requires At(ts, p, IDENT) && At(ts, p + 1, EQ) && ParseAt(PRIMARY, ts, p).Done?
    ensures Derives(PRIMARY, d, ts, p, ParseAt(PRIMARY, ts, p).value, ParseAt(PRIMARY, ts, p).next)
    decreases |ts| - p, 0
  {
    hide ParseAt, Fits, OpLevel;
    PrimaryStep(ts, p);
    var r, text := ParseAt(PRIMARY, ts, p), ts[p].content;
    var v := ParseSound(LOGICAL, ts, p + 2);
    d := CAssign(text, v);
    FitsAssign(text, v, ts, p, r.value, r.next);
  }

  // Brackets and calls end by themselves.
  lemma {:induction false} ClosedStops(d: Cst, k: TokenType)
    requires d.CParen? || d.CCall?
    ensures Stops(PRIMARY, d, k)
  {
    hide OpLevel;
  }

  lemma {:induction false} ArgsSound(before: seq<Expr>, ts: seq<Token>, p: nat, es: seq<Expr>, q: nat)
    returns (args: Args)
    requires p <= |ts| && ParseArgs(before, ts, p) == Done(es, q)
    ensures q > 0 && before <= es && ArgsFit(args, ts, p, es[|before|..], q - 1) && At(ts, q - 1, SEMICOLON)
    ensures KindAt(ts, p) == SEMICOLON ==> args.NoArgs?
    decreases |ts| - p, 20
  {
    hide ParseAt, ParseArgs, Fits, Stops, LevelOf, OpLevel, IsUnary, Width, Expect, OpenRight, Stoll;
    ArgsStep(before, ts, p);
    if KindAt(ts, p) == SEMICOLON {
      args := NoArgs;
    } else {
      hide ArgsFit;
      var f := ParseSound(LOGICAL, ts, p);
      var a := ParseAt(LOGICAL, ts, p);
      FitsInside(f, ts, p, a.value, a.next);
      var comma := KindAt(ts, a.next) == COMMA;
      var more := before + [a.value];
      var rest := ArgsSound(more, ts, if comma then a.next + 1 else a.next, es, q);
      args := Arg(f, comma, rest);
      FirstOfRest(before, a.value, es);
      FitsArg(f, comma, rest, ts, p, es[|before|..], q - 1);
    }
  }

  lemma {:induction false} FirstOfRest(before: seq<Expr>, e: Expr, es: seq<Expr>)
    requires before + [e] <= es
    ensures before <= es && es[|before|..] != [] && es[|before|..][0] == e
    ensures es[|before|..][1..] == es[|before + [e]|..]
  {
    assert (before + [e])[|before|] == e;
  }

  // Parsing at a level succeeds exactly with the derivations of that level that end where the
  // following token cannot extend them.
  lemma {:induction false} ParseMeaning(level: nat, ts: seq<Token>, p: nat, e: Expr, q: nat)
    requires level <= PRIMARY && p <= |ts|
    ensures ParseAt(level, ts, p) == Done(e, q) <==> exists d :: Derives(level, d, ts, p, e, q)
  {
    hide ParseAt, Derives;
    if ParseAt(level, ts, p) == Done(e, q) {
      var d := ParseSound(level, ts, p);
    }
    if d :| Derives(level, d, ts, p, e, q) {
      WholeComplete(level, d, ts, p, e, q);
    }
  }

  // Unambiguous: what a position reads as at a level is one tree and one end.
  lemma {:induction false} Unambiguous(level: nat, ts: seq<Token>, p: nat, d: Cst, e: Expr, q: nat, d': Cst, e': Expr,
                                       q': nat)
    requires level <= PRIMARY && Derives(level, d, ts, p, e, q) && Derives(level, d', ts, p, e', q')
    ensures e == e' && q == q'
  {
    hide ParseAt, Derives;
    WholeComplete(level, d, ts, p, e, q);
    WholeComplete(level, d', ts, p, e', q');
  }
}
