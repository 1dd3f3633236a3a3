// Statements and programs: their grammar, and that the parser finds exactly its derivations.
module Programs {
  import opened Wrappers
  import opened Tokens
  import opened Ast
  import opened Numerals
  import opened Parsing
  import opened Grammar

  // A derivation of one statement, or a token that is skipped.
  datatype Item =
    | ISkip
    | IDecl(name: string, typed: bool, value: Cst)
    | IBlock(body: Items)
    | IIf(cond: Cst, yes: Items)
    | IIfElse(cond: Cst, yes: Items, no: Items)
    | IExpr(d: Cst)

  datatype Items = Nothing | Then(first: Item, rest: Items)

  function ItemWidth(it: Item): (n: nat)
    ensures n > 0
  {
    match it
    case ISkip => 1
    case IDecl(_, typed, v) => (if typed then 5 else 3) + Width(v)
    case IBlock(b) => 2 + ItemsWidth(b)
    case IIf(c, yes) => 5 + Width(c) + ItemsWidth(yes)
    case IIfElse(c, yes, no) => 8 + Width(c) + ItemsWidth(yes) + ItemsWidth(no)
    case IExpr(d) => Width(d)
  }

  function ItemsWidth(its: Items): nat {
    match its
    case Nothing => 0
    case Then(it, rest) => ItemWidth(it) + ItemsWidth(rest)
  }

  // Tokens between statements that are passed over, inside a block or outside.
  predicate Skippable(k: TokenType, inner: bool) {
    !StartsStmt(k) && (inner ==> k != R_CURL_BRKT && k != END_OF_FILE)
  }

  // it derives the statement s from the tokens at p up to q.
  predicate StmtFits(it: Item, ts: seq<Token>, p: nat, s: Stmt, q: nat)
    decreases it
  {
    q == p + ItemWidth(it) && q <= |ts| &&
    match it
    case ISkip => false
    case IDecl(n, typed, v) =>
      var m := if typed then p + 4 else p + 2;
      At(ts, p, VAR) && ts[p + 1] == Token(IDENT, n) && (typed <==> At(ts, p + 2, ARR_RIGHT)) && At(ts, m, EQ) &&
      s.VarDecl? && s.name == n && Derives(LOGICAL, v, ts, m + 1, s.value, q)
    case IBlock(b) =>
      At(ts, p, L_CURL_BRKT) && At(ts, q - 1, R_CURL_BRKT) && s.Block? && ItemsFit(b, ts, p + 1, s.body, q - 1, true)
    case IIf(c, yes) =>
      s.IfElse? && s.no == NoElse && ThenFits(c, yes, ts, p, s.cond, s.yes, q) && !At(ts, q, ELSE)
    case IIfElse(c, yes, no) =>
      var m := p + 5 + Width(c) + ItemsWidth(yes);
      s.IfElse? && s.no.Else? && ThenFits(c, yes, ts, p, s.cond, s.yes, m) && At(ts, m, ELSE) &&
      At(ts, m + 1, L_CURL_BRKT) && ItemsFit(no, ts, m + 2, s.no.body, q - 1, true) && At(ts, q - 1, R_CURL_BRKT)
    case IExpr(d) =>
      At(ts, p, IDENT) && s.ExprStmt? && Derives(PRIMARY, d, ts, p, s.e, q)
  }

  // IF ( cond ) { yes }
  predicate ThenFits(c: Cst, yes: Items, ts: seq<Token>, p: nat, cond: Expr, ss: seq<Stmt>, q: nat)
    decreases yes, 1
  {
    var m := p + 2 + Width(c);
    At(ts, p, IF) && At(ts, p + 1, L_PAREN) && Fits(c, ts, p + 2, cond, m) && At(ts, m, R_PAREN) &&
    At(ts, m + 1, L_CURL_BRKT) && q >= 1 && ItemsFit(yes, ts, m + 2, ss, q - 1, true) && At(ts, q - 1, R_CURL_BRKT)
  }

  // its derives the statements ss from the tokens at p up to q.
  predicate ItemsFit(its: Items, ts: seq<Token>, p: nat, ss: seq<Stmt>, q: nat, inner: bool)
    decreases its, 0
  {
    q == p + ItemsWidth(its) && q <= |ts| &&
    match its
    case Nothing => ss == []
    case Then(it, rest) =>
      var m := p + ItemWidth(it);
      if it.ISkip? then Skippable(KindAt(ts, p), inner) && ItemsFit(rest, ts, m, ss, q, inner)
      else ss != [] && StmtFits(it, ts, p, ss[0], m) && ItemsFit(rest, ts, m, ss[1..], q, inner)
  }

  lemma {:induction false} ItemsInside(its: Items, ts: seq<Token>, p: nat, ss: seq<Stmt>, q: nat, inner: bool)
    requires ItemsFit(its, ts, p, ss, q, inner)
    ensures p <= q <= |ts| && q == p + ItemsWidth(its)
  {
  }

  lemma {:induction false} StmtInside(it: Item, ts: seq<Token>, p: nat, s: Stmt, q: nat)
    requires StmtFits(it, ts, p, s, q)
    ensures p < q <= |ts| && q == p + ItemWidth(it) && StartsStmt(KindAt(ts, p)) && !it.ISkip?
  {
    hide Derives, ItemsFit, Fits;
  }

  // ---------- every derivation is found ----------

  lemma {:induction false} StmtComplete(it: Item, ts: seq<Token>, p: nat, s: Stmt, q: nat)
    requires StmtFits(it, ts, p, s, q)
    ensures p < |ts| && StartsStmt(ts[p].kind) && ParseStmt(ts, p) == Done(s, q)
    decreases it
  {
    hide ParseStmt, ParseAt, ParseBlock, ParseIf, ParseVarDecl, StmtFits, StartsStmt, ItemWidth;
    StmtInside(it, ts, p, s, q);
    match it
    case ISkip =>
    case IDecl(_, _, _) =>
      DeclComplete(it, ts, p, s, q);
      StmtStep(ts, p);
    case IBlock(b) => BlockStmtComplete(b, ts, p, s, q);
    case IIf(_, _) =>
      IfComplete(it, ts, p, s, q);
      StmtStep(ts, p);
    case IIfElse(_, _, _) =>
      IfElseComplete(it, ts, p, s, q);
      StmtStep(ts, p);
    case IExpr(d) => ExprStmtComplete(d, ts, p, s, q);
  }

  lemma {:induction false} BlockStmtComplete(b: Items, ts: seq<Token>, p: nat, s: Stmt, q: nat)
    requires StmtFits(IBlock(b), ts, p, s, q)
    ensures p < |ts| && ParseStmt(ts, p) == Done(s, q)
    decreases b, 2
  {
    hide ParseStmt, ParseBlock, StmtFits, ItemsFit;
    TakeBlock(b, ts, p, s, q);
    BlockComplete(b, ts, p + 1, s.body, q - 1);
    StmtStep(ts, p);
  }

  lemma {:induction false} ExprStmtComplete(d: Cst, ts: seq<Token>, p: nat, s: Stmt, q: nat)
    requires StmtFits(IExpr(d), ts, p, s, q)
    ensures p < |ts| && ParseStmt(ts, p) == Done(s, q)
  {
    hide ParseStmt, ParseAt, StmtFits, Derives;
    TakeExpr(d, ts, p, s, q);
    WholeComplete(PRIMARY, d, ts, p, s.e, q);
    StmtStep(ts, p);
  }

  lemma {:induction false} DeclComplete(it: Item, ts: seq<Token>, p: nat, s: Stmt, q: nat)
    requires StmtFits(it, ts, p, s, q) && it.IDecl?
    ensures At(ts, p, VAR) && ParseVarDecl(ts, p) == Done(s, q)
  {
    hide ParseAt, ItemsFit, ThenFits, Fits, LevelOf, Stops;
    var m := if it.typed then p + 4 else p + 2;
    WholeComplete(LOGICAL, it.value, ts, m + 1, s.value, q);
  }

  lemma {:induction false} TakeDecl(it: Item, ts: seq<Token>, p: nat, s: Stmt, q: nat)
    requires StmtFits(it, ts, p, s, q) && it.IDecl?
    ensures var m := if it.typed then p + 5 else p + 3;
            At(ts, p + 1, IDENT) && s.VarDecl? && s.name == ts[p + 1].content &&
            Derives(LOGICAL, it.value, ts, m, s.value, q)
  {
    hide ItemsFit, ThenFits, Derives;
  }

  lemma {:induction false} TakeBlock(b: Items, ts: seq<Token>, p: nat, s: Stmt, q: nat)
    requires StmtFits(IBlock(b), ts, p, s, q)
    ensures q > 0 && At(ts, p, L_CURL_BRKT) && At(ts, q - 1, R_CURL_BRKT) && s.Block? &&
            ItemsFit(b, ts, p + 1, s.body, q - 1, true)
  {
    hide ItemsFit, ThenFits, Derives;
  }

  lemma {:induction false} TakeExpr(d: Cst, ts: seq<Token>, p: nat, s: Stmt, q: nat)
    requires StmtFits(IExpr(d), ts, p, s, q)
    ensures At(ts, p, IDENT) && s.ExprStmt? && Derives(PRIMARY, d, ts, p, s.e, q)
  {
    hide ItemsFit, ThenFits, Derives;
  }

  lemma {:induction false} TakeIf(it: Item, ts: seq<Token>, p: nat, s: Stmt, q: nat)
    requires StmtFits(it, ts, p, s, q) && it.IIf?
    ensures s.IfElse? && s.no == NoElse && ThenFits(it.cond, it.yes, ts, p, s.cond, s.yes, q) && !At(ts, q, ELSE)
  {
    hide ItemsFit, ThenFits, Derives;
  }

  lemma {:induction false} TakeIfElse(it: Item, ts: seq<Token>, p: nat, s: Stmt, q: nat)
    requires StmtFits(it, ts, p, s, q) && it.IIfElse?
    ensures var m := p + 5 + Width(it.cond) + ItemsWidth(it.yes);
            s.IfElse? && s.no.Else? && ThenFits(it.cond, it.yes, ts, p, s.cond, s.yes, m) && At(ts, m, ELSE) &&
            At(ts, m + 1, L_CURL_BRKT) && q > 0 && ItemsFit(it.no, ts, m + 2, s.no.body, q - 1, true) &&
            At(ts, q - 1, R_CURL_BRKT)
  {
    hide ItemsFit, ThenFits, Derives;
  }

  lemma {:induction false} TakeItem(it: Item, rest: Items, ts: seq<Token>, p: nat, ss: seq<Stmt>, q: nat, inner: bool)
    requires ItemsFit(Then(it, rest), ts, p, ss, q, inner)
    ensures var m := p + ItemWidth(it);
            if it.ISkip? then m == p + 1 && p < |ts| && Skippable(KindAt(ts, p), inner) &&
              ItemsFit(rest, ts, m, ss, q, inner)
            else ss != [] && StmtFits(it, ts, p, ss[0], m) && ItemsFit(rest, ts, m, ss[1..], q, inner)
  {
    hide StmtFits;
  }

  lemma {:induction false} IfComplete(it: Item, ts: seq<Token>, p: nat, s: Stmt, q: nat)
    requires StmtFits(it, ts, p, s, q) && it.IIf?
    ensures At(ts, p, IF) && ParseIf(ts, p) == Done(s, q)
    decreases it, 0
  {
    hide ParseAt, ParseBlock, ParseIf, ItemsFit, ThenFits, StmtFits, Width, ItemsWidth;
    TakeIf(it, ts, p, s, q);
    ThenComplete(it.cond, it.yes, ts, p, s.cond, s.yes, q);
    IfStep(ts, p);
  }

  lemma {:induction false} IfElseComplete(it: Item, ts: seq<Token>, p: nat, s: Stmt, q: nat)
    requires StmtFits(it, ts, p, s, q) && it.IIfElse?
    ensures At(ts, p, IF) && ParseIf(ts, p) == Done(s, q)
    decreases it, 0
  {
    hide ParseAt, ParseBlock, ParseIf, ItemsFit, ThenFits, StmtFits, Width, ItemsWidth;
    TakeIfElse(it, ts, p, s, q);
    var m := p + 5 + Width(it.cond) + ItemsWidth(it.yes);
    ThenComplete(it.cond, it.yes, ts, p, s.cond, s.yes, m);
    BlockComplete(it.no, ts, m + 2, s.no.body, q - 1);
    IfStep(ts, p);
  }

  lemma {:induction false} ThenComplete(c: Cst, yes: Items, ts: seq<Token>, p: nat, cond: Expr, ss: seq<Stmt>, q: nat)
    requires ThenFits(c, yes, ts, p, cond, ss, q)
    ensures At(ts, p, IF) && q == p + 5 + Width(c) + ItemsWidth(yes) && ThenParsed(ts, p)
    ensures var m := p + 2 + Width(c);
            ParseAt(LOGICAL, ts, p + 2) == Done(cond, m) && ParseBlock(ts, m + 1) == Done(ss, q)
    decreases yes, 2
  {
    hide ParseBlock, ParseAt, ItemsFit, Fits, Stops, LevelOf;
    var m := p + 2 + Width(c);
    BracketStops(c, R_PAREN);
    WholeComplete(LOGICAL, c, ts, p + 2, cond, m);
    ItemsInside(yes, ts, m + 2, ss, q - 1, true);
    BlockComplete(yes, ts, m + 2, ss, q - 1);
  }

  lemma {:induction false} BlockComplete(body: Items, ts: seq<Token>, p: nat, ss: seq<Stmt>, q: nat)
    requires p > 0 && At(ts, p - 1, L_CURL_BRKT) && ItemsFit(body, ts, p, ss, q, true) && At(ts, q, R_CURL_BRKT)
    ensures ParseBlock(ts, p - 1) == Done(ss, q + 1)
    decreases body, 1
  {
    hide ParseBody, ItemsFit;
    BodyComplete([], body, ts, p, ss, q);
    assert [] + ss == ss;
  }

  lemma {:induction false} BodyComplete(before: seq<Stmt>, its: Items, ts: seq<Token>, p: nat, ss: seq<Stmt>, q: nat)
    requires ItemsFit(its, ts, p, ss, q, true) && At(ts, q, R_CURL_BRKT)
    ensures p <= |ts| && ParseBody(before, ts, p) == Done(before + ss, q + 1)
    decreases its, 0
  {
    hide ParseBody, ParseStmt, StmtFits, ItemWidth;
    ItemsInside(its, ts, p, ss, q, true);
    BodyStep(before, ts, p);
    match its
    case Nothing =>
      assert before + ss == before;
    case Then(it, rest) =>
      TakeItem(it, rest, ts, p, ss, q, true);
      hide ItemsFit;
      var m := p + ItemWidth(it);
      if it.ISkip? {
        BodyComplete(before, rest, ts, m, ss, q);
      } else {
        StmtComplete(it, ts, p, ss[0], m);
        BodyComplete(before + [ss[0]], rest, ts, m, ss[1..], q);
        Rejoin(before, ss);
      }
  }

  lemma {:induction false} Rejoin(before: seq<Stmt>, ss: seq<Stmt>)
    requires ss != []
    ensures before + [ss[0]] + ss[1..] == before + ss
  {
  }

  lemma {:induction false} FromStep(before: seq<Stmt>, ts: seq<Token>, p: nat)
    requires p < |ts|
    ensures !StartsStmt(ts[p].kind) ==> ParseFrom(before, ts, p) == ParseFrom(before, ts, p + 1)
    ensures StartsStmt(ts[p].kind) ==>
              var s := ParseStmt(ts, p);
              ParseFrom(before, ts, p) == if s.Failed? then Failed(s.error)
                else ParseFrom(before + [s.value], ts, s.next)
  {
    hide ParseStmt;
  }

  lemma {:induction false} ProgramComplete(before: seq<Stmt>, its: Items, ts: seq<Token>, p: nat, ss: seq<Stmt>)
    requires ItemsFit(its, ts, p, ss, |ts|, false)
    ensures p <= |ts| && ParseFrom(before, ts, p) == Done(before + ss, |ts|)
    decreases its
  {
    hide ParseStmt, StmtFits, ItemWidth;
    ItemsInside(its, ts, p, ss, |ts|, false);
    match its
    case Nothing =>
      assert before + ss == before;
    case Then(it, rest) =>
      TakeItem(it, rest, ts, p, ss, |ts|, false);
      hide ItemsFit, ParseFrom;
      var m := p + ItemWidth(it);
      if it.ISkip? {
        FromStep(before, ts, p);
        ProgramComplete(before, rest, ts, m, ss);
      } else {
        StmtComplete(it, ts, p, ss[0], m);
        FromStep(before, ts, p);
        ProgramComplete(before + [ss[0]], rest, ts, m, ss[1..]);
        Rejoin(before, ss);
      }
  }

  // ---------- whatever is found is a derivation ----------

  lemma {:induction false} StmtSound(ts: seq<Token>, p: nat) returns (it: Item)
    requires p < |ts| && StartsStmt(ts[p].kind) && ParseStmt(ts, p).Done?
    ensures StmtFits(it, ts, p, ParseStmt(ts, p).value, ParseStmt(ts, p).next)
    decreases |ts| - p, 2
  {
    hide ParseAt, ParseBlock, ParseStmt, ParseIf, ParseVarDecl, ItemsFit, ThenFits, StmtFits;
    StmtStep(ts, p);
    if ts[p].kind == VAR {
      it := DeclSound(ts, p);
    } else if ts[p].kind == L_CURL_BRKT {
      var b := BlockSound(ts, p);
      it := IBlock(b);
      BlockFits(b, ts, p, ParseStmt(ts, p).value, ParseStmt(ts, p).next);
    } else if ts[p].kind == IF {
      it := IfSound(ts, p);
    } else {
      var d := ParseSound(PRIMARY, ts, p);
      it := IExpr(d);
      ExprFits(d, ts, p, ParseStmt(ts, p).value, ParseStmt(ts, p).next);
    }
  }

  lemma {:induction false} BlockFits(b: Items, ts: seq<Token>, p: nat, s: Stmt, q: nat)
    requires q > 0 && q == p + 2 + ItemsWidth(b) && At(ts, p, L_CURL_BRKT) && At(ts, q - 1, R_CURL_BRKT)
    requires s.Block? && ItemsFit(b, ts, p + 1, s.body, q - 1, true)
    ensures StmtFits(IBlock(b), ts, p, s, q)
  {
    hide ItemsFit, ThenFits, Derives;
  }

  lemma {:induction false} DerivesInside(level: nat, d: Cst, ts: seq<Token>, p: nat, e: Expr, q: nat)
    requires Derives(level, d, ts, p, e, q)
    ensures p < q <= |ts| && q == p + Width(d)
  {
    hide Fits, Stops, LevelOf;
    FitsInside(d, ts, p, e, q);
  }

  lemma {:induction false} ExprFits(d: Cst, ts: seq<Token>, p: nat, s: Stmt, q: nat)
    requires At(ts, p, IDENT) && s.ExprStmt? && Derives(PRIMARY, d, ts, p, s.e, q)
    ensures StmtFits(IExpr(d), ts, p, s, q)
  {
    hide ItemsFit, ThenFits, Derives;
    DerivesInside(PRIMARY, d, ts, p, s.e, q);
  }

  lemma {:induction false} DeclFits(n: string, typed: bool, v: Cst, ts: seq<Token>, p: nat, s: Stmt, q: nat)
    requires var m := if typed then p + 4 else p + 2;
             At(ts, p, VAR) && At(ts, p + 1, IDENT) && ts[p + 1].content == n &&
             (typed <==> At(ts, p + 2, ARR_RIGHT)) &&
             At(ts, m, EQ) && s.VarDecl? && s.name == n && Derives(LOGICAL, v, ts, m + 1, s.value, q)
    ensures StmtFits(IDecl(n, typed, v), ts, p, s, q)
  {
    hide ItemsFit, ThenFits, Derives;
    DerivesInside(LOGICAL, v, ts, if typed then p + 5 else p + 3, s.value, q);
  }

  lemma {:induction false} DeclSound(ts: seq<Token>, p: nat) returns (it: Item)
    requires At(ts, p, VAR) && ParseVarDecl(ts, p).Done?
    ensures StmtFits(it, ts, p, ParseVarDecl(ts, p).value, ParseVarDecl(ts, p).next)
  {
    hide ParseAt, StmtFits, Derives;
    var typed := At(ts, p + 2, ARR_RIGHT);
    var m := if typed then p + 4 else p + 2;
    var v := ParseSound(LOGICAL, ts, m + 1);
    it := IDecl(ts[p + 1].content, typed, v);
    DeclFits(ts[p + 1].content, typed, v, ts, p, ParseVarDecl(ts, p).value, ParseVarDecl(ts, p).next);
  }

  lemma {:induction false} IfSound(ts: seq<Token>, p: nat) returns (it: Item)
    requires At(ts, p, IF) && ParseIf(ts, p).Done?
    ensures StmtFits(it, ts, p, ParseIf(ts, p).value, ParseIf(ts, p).next)
    decreases |ts| - p, 1
  {
    hide ParseAt, ParseBlock, ParseIf, ItemsFit, Fits, Stops, LevelOf, ItemsWidth, StmtFits, Width, IsUnary;
    IfStep(ts, p);
    var c := ParseSound(LOGICAL, ts, p + 2);
    var cond := ParseAt(LOGICAL, ts, p + 2);
    FitsInside(c, ts, p + 2, cond.value, cond.next);
    var yes := BlockSound(ts, cond.next + 1);
    var y := ParseBlock(ts, cond.next + 1);
    assert ThenFits(c, yes, ts, p, cond.value, y.value, y.next);
    hide ThenFits;
    if KindAt(ts, y.next) == ELSE {
      var no := BlockSound(ts, y.next + 1);
      it := IIfElse(c, yes, no);
      IfElseFits(c, yes, no, ts, p, ParseIf(ts, p).value, y.next, ParseIf(ts, p).next);
    } else {
      it := IIf(c, yes);
      IfFits(c, yes, ts, p, ParseIf(ts, p).value, y.next);
    }
  }

  lemma {:induction false} IfFits(c: Cst, yes: Items, ts: seq<Token>, p: nat, s: Stmt, q: nat)
    requires s.IfElse? && s.no == NoElse && ThenFits(c, yes, ts, p, s.cond, s.yes, q) && !At(ts, q, ELSE)
    ensures StmtFits(IIf(c, yes), ts, p, s, q)
  {
    hide Fits, Derives, ItemsFit;
    ItemsInside(yes, ts, p + 4 + Width(c), s.yes, q - 1, true);
  }

  lemma {:induction false} ThenWidth(c: Cst, yes: Items, ts: seq<Token>, p: nat, cond: Expr, ss: seq<Stmt>, m: nat)
    requires ThenFits(c, yes, ts, p, cond, ss, m)
    ensures m == p + 5 + Width(c) + ItemsWidth(yes) <= |ts|
  {
    hide Fits, ItemsFit;
    ItemsInside(yes, ts, p + 4 + Width(c), ss, m - 1, true);
  }

  lemma {:induction false} IfElseFits(c: Cst, yes: Items, no: Items, ts: seq<Token>, p: nat, s: Stmt, m: nat, q: nat)
    requires s.IfElse? && s.no.Else? && ThenFits(c, yes, ts, p, s.cond, s.yes, m) && At(ts, m, ELSE)
    requires At(ts, m + 1, L_CURL_BRKT) && q > 0 && ItemsFit(no, ts, m + 2, s.no.body, q - 1, true) &&
             At(ts, q - 1, R_CURL_BRKT)
    ensures StmtFits(IIfElse(c, yes, no), ts, p, s, q)
  {
    hide Fits, Derives, ItemsFit;
    hide ThenFits;
    ThenWidth(c, yes, ts, p, s.cond, s.yes, m);
    ItemsInside(no, ts, m + 2, s.no.body, q - 1, true);
  }

  lemma {:induction false} BlockSound(ts: seq<Token>, p: nat) returns (body: Items)
    requires p <= |ts| && ParseBlock(ts, p).Done?
    ensures var r := ParseBlock(ts, p);
            At(ts, p, L_CURL_BRKT) && r.next == p + 2 + ItemsWidth(body) <= |ts| && At(ts, r.next - 1, R_CURL_BRKT) &&
            ItemsFit(body, ts, p + 1, r.value, r.next - 1, true)
    decreases |ts| - p, 0
  {
    hide ParseBody, ItemsFit;
    var r := ParseBlock(ts, p);
    body := BodySound([], ts, p + 1, r.value, r.next);
    assert r.value[0..] == r.value;
    ItemsInside(body, ts, p + 1, r.value, r.next - 1, true);
  }

  lemma {:induction false} BodySound(before: seq<Stmt>, ts: seq<Token>, p: nat, all: seq<Stmt>, q: nat)
    returns (its: Items)
    requires p <= |ts| && ParseBody(before, ts, p) == Done(all, q)
    ensures q > 0 && before <= all && ItemsFit(its, ts, p, all[|before|..], q - 1, true) && At(ts, q - 1, R_CURL_BRKT)
    decreases |ts| - p, 3
  {
    hide ParseBody, ParseStmt, StmtFits, ItemWidth, ItemsFit;
    BodyStep(before, ts, p);
    if KindAt(ts, p) == R_CURL_BRKT {
      its := Nothing;
      NothingFits(ts, p, all[|before|..], true);
    } else if StartsStmt(KindAt(ts, p)) {
      var it := StmtSound(ts, p);
      var s := ParseStmt(ts, p);
      StmtInside(it, ts, p, s.value, s.next);
      var rest := BodySound(before + [s.value], ts, s.next, all, q);
      NextOfAll(before, s.value, all);
      its := Then(it, rest);
      ItemsThen(it, rest, ts, p, s.value, s.next, all[|before|..], q - 1, true);
    } else {
      var rest := BodySound(before, ts, p + 1, all, q);
      its := Then(ISkip, rest);
      ItemsSkip(rest, ts, p, all[|before|..], q - 1, true);
    }
  }

  lemma {:induction false} NothingFits(ts: seq<Token>, p: nat, ss: seq<Stmt>, inner: bool)
    requires p <= |ts| && ss == []
    ensures ItemsFit(Nothing, ts, p, ss, p, inner)
  {
  }

  lemma {:induction false} ItemsThen(it: Item, rest: Items, ts: seq<Token>, p: nat, s: Stmt, m: nat, ss: seq<Stmt>,
                                     q: nat, inner: bool)
    requires StmtFits(it, ts, p, s, m) && ss != [] && ss[0] == s && ItemsFit(rest, ts, m, ss[1..], q, inner)
    ensures ItemsFit(Then(it, rest), ts, p, ss, q, inner)
  {
    hide StmtFits, ItemWidth, Skippable;
    StmtInside(it, ts, p, s, m);
    ItemsInside(rest, ts, m, ss[1..], q, inner);
  }

  lemma {:induction false} ItemsSkip(rest: Items, ts: seq<Token>, p: nat, ss: seq<Stmt>, q: nat, inner: bool)
    requires Skippable(KindAt(ts, p), inner) && ItemsFit(rest, ts, p + 1, ss, q, inner)
    ensures ItemsFit(Then(ISkip, rest), ts, p, ss, q, inner)
  {
    hide StmtFits, Skippable, KindAt;
    var it := ISkip;
    assert ItemWidth(it) == 1;
    ItemsInside(rest, ts, p + 1, ss, q, inner);
    hide ItemWidth;
    assert ItemsWidth(Then(it, rest)) == 1 + ItemsWidth(rest);
  }

  lemma {:induction false} NextOfAll(before: seq<Stmt>, s: Stmt, all: seq<Stmt>)
    requires before + [s] <= all
    ensures before <= all && all[|before|..] != [] && all[|before|..][0] == s
    ensures all[|before|..][1..] == all[|before + [s]|..]
  {
    var n := |before|;
    assert (before + [s])[n] == s;
    assert |before + [s]| == n + 1;
    assert all[n..][1..] == all[n + 1..];
  }

  lemma {:induction false} ProgramSound(before: seq<Stmt>, ts: seq<Token>, p: nat, all: seq<Stmt>) returns (its: Items)
    requires p <= |ts| && ParseFrom(before, ts, p) == Done(all, |ts|)
    ensures before <= all && ItemsFit(its, ts, p, all[|before|..], |ts|, false)
    decreases |ts| - p
  {
    hide ParseStmt, StmtFits, ItemWidth, ItemsFit;
    if p == |ts| {
      its := Nothing;
      NothingFits(ts, p, all[|before|..], false);
    } else if StartsStmt(ts[p].kind) {
      var it := StmtSound(ts, p);
      var s := ParseStmt(ts, p);
      StmtInside(it, ts, p, s.value, s.next);
      var rest := ProgramSound(before + [s.value], ts, s.next, all);
      NextOfAll(before, s.value, all);
      its := Then(it, rest);
      ItemsThen(it, rest, ts, p, s.value, s.next, all[|before|..], |ts|, false);
    } else {
      var rest := ProgramSound(before, ts, p + 1, all);
      its := Then(ISkip, rest);
      ItemsSkip(rest, ts, p, all[|before|..], |ts|, false);
    }
  }

  // A token vector parses to a program exactly when the grammar derives that program from it.
  lemma {:induction false} ProgramMeaning(ts: seq<Token>, program: seq<Stmt>)
    ensures ParseProgram(ts) == Done(program, |ts|) <==> exists its :: ItemsFit(its, ts, 0, program, |ts|, false)
  {
    hide ItemsFit, ParseFrom;
    if ParseProgram(ts) == Done(program, |ts|) {
      var its := ProgramSound([], ts, 0, program);
      assert program[0..] == program;
    }
    if its :| ItemsFit(its, ts, 0, program, |ts|, false) {
      ProgramComplete([], its, ts, 0, program);
      assert [] + program == program;
    }
  }
}
