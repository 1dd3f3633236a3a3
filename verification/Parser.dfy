// What each parse function computes: a tree and the position after it, or the exception
// (src/compiler/parser.cpp).
module Parsing {
  import opened Wrappers
  import opened Tokens
  import opened Ast
  import opened Numerals

  const LOGICAL: nat := 0
  const COMPARISON: nat := 1
  const ADDITIVE: nat := 2
  const MULTIPLICATIVE: nat := 3
  const UNARY: nat := 4
  const PRIMARY: nat := 5
  const NO_OPERATOR: nat := 7

  // The precedence level a token is a binary operator of.
  function OpLevel(k: TokenType): nat {
    if k == DOUBLE_AND || k == DOUBLE_VBAR then LOGICAL
    else if k == EQEQ || k == NOT_EQ || k == GREATER || k == LOWER then COMPARISON
    else if k == PLUS || k == MINUS then ADDITIVE
    else if k == STAR || k == SLASH then MULTIPLICATIVE
    else NO_OPERATOR
  }

  // The operators each loop looks for.
  predicate IsMultiplicative(k: TokenType) {
    k == STAR || k == SLASH
  }

  predicate IsAdditive(k: TokenType) {
    k == PLUS || k == MINUS
  }

  predicate IsComparison(k: TokenType) {
    k == EQEQ || k == NOT_EQ || k == GREATER || k == LOWER
  }

  predicate IsLogical(k: TokenType) {
    k == DOUBLE_AND || k == DOUBLE_VBAR
  }

  lemma {:induction false} LevelKinds(k: TokenType)
    ensures OpLevel(k) == LOGICAL <==> IsLogical(k)
    ensures OpLevel(k) == COMPARISON <==> IsComparison(k)
    ensures OpLevel(k) == ADDITIVE <==> IsAdditive(k)
    ensures OpLevel(k) == MULTIPLICATIVE <==> IsMultiplicative(k)
  {
  }

  predicate IsUnary(k: TokenType) {
    k == MINUS || k == NOT
  }

  // peek(s).type
  function KindAt(ts: seq<Token>, p: nat): TokenType {
    if p < |ts| then ts[p].kind else END_OF_FILE
  }

  predicate At(ts: seq<Token>, p: nat, k: TokenType) {
    p < |ts| && ts[p].kind == k
  }

  // ---------- expressions ----------

  // parseLogical to parsePrimary, by level.  Parsing either fails or moves forward.
  function ParseAt(level: nat, ts: seq<Token>, p: nat): (r: Parsed<Expr>)
    requires level <= PRIMARY && p <= |ts|
    ensures r.Done? ==> p < r.next <= |ts|
    decreases |ts| - p, 6 - level
  {
    if level == PRIMARY then ParsePrimary(ts, p)
    else if level == UNARY then
      if IsUnary(KindAt(ts, p)) then
        var r := ParseAt(UNARY, ts, p + 1);
        if r.Failed? then r else Done(Unary(ts[p].kind, r.value), r.next)
      else ParseAt(PRIMARY, ts, p)
    else
      var left := ParseAt(level + 1, ts, p);
      if left.Failed? then left else ParseLoop(level, left.value, ts, left.next)
  }

  // The rest of a left-associative chain whose left part is already parsed.
  function ParseLoop(level: nat, left: Expr, ts: seq<Token>, p: nat): (r: Parsed<Expr>)
    requires level < UNARY && p <= |ts|
    ensures r.Done? ==> p <= r.next <= |ts|
    decreases |ts| - p, 0
  {
    if OpLevel(KindAt(ts, p)) == level then
      var right := ParseAt(level + 1, ts, p + 1);
      if right.Failed? then right
      else ParseLoop(level, Binary(ts[p].kind, left, right.value), ts, right.next)
    else Done(left, p)
  }

  function ParsePrimary(ts: seq<Token>, p: nat): (r: Parsed<Expr>)
    requires p <= |ts|
    ensures r.Done? ==> p < r.next <= |ts|
    decreases |ts| - p, 0
  {
    match KindAt(ts, p)
    case NUMBER =>
      var n := Stoll(ts[p].content);
      if n.None? then Failed(BadNumber) else Done(IntLiteral(n.value), p + 1)
    case IDENT =>
      var name := ts[p].content;
      if KindAt(ts, p + 1) == COLON then
        var args := ParseArgs([], ts, p + 2);
        if args.Failed? then Failed(args.error) else Done(FuncCall(name, args.value), args.next)
      else if KindAt(ts, p + 1) == EQ then
        var value := ParseAt(LOGICAL, ts, p + 2);
        if value.Failed? then value else Done(Assign(name, value.value), value.next)
      else Done(Identifier(name), p + 1)
    case L_PAREN =>
      var inner := ParseAt(LOGICAL, ts, p + 1);
      if inner.Failed? then inner
      else
        var e := Expect(ts, inner.next, R_PAREN);
        if e.Some? then Failed(e.value) else Done(inner.value, inner.next + 1)
    case _ => Failed(UnexpectedToken)
  }

  // Arguments up to and with the semicolon, after those already parsed.
  function ParseArgs(args: seq<Expr>, ts: seq<Token>, p: nat): (r: Parsed<seq<Expr>>)
    requires p <= |ts|
    ensures r.Done? ==> p < r.next <= |ts|
    decreases |ts| - p, 7
  {
    if KindAt(ts, p) == SEMICOLON then Done(args, p + 1)
    else
      var a := ParseAt(LOGICAL, ts, p);
      if a.Failed? then Failed(a.error)
      else if KindAt(ts, a.next) == COMMA then ParseArgs(args + [a.value], ts, a.next + 1)
      else if KindAt(ts, a.next) == SEMICOLON then ParseArgs(args + [a.value], ts, a.next)
      else Failed(ExpectedSeparator)
  }

  // The exception `expect` throws.
  function Expect(ts: seq<Token>, p: nat, k: TokenType): Option<ParseError> {
    if p >= |ts| then Some(UnexpectedEnd) else if ts[p].kind != k then Some(OtherExpected) else None
  }

  lemma {:induction false} AtStep(level: nat, above: nat, ts: seq<Token>, p: nat)
    requires level < UNARY && p <= |ts| && above == level + 1
    ensures var left := ParseAt(above, ts, p);
            ParseAt(level, ts, p) == if left.Failed? then left else ParseLoop(level, left.value, ts, left.next)
  {
  }

  lemma {:induction false} LoopStep(level: nat, above: nat, left: Expr, ts: seq<Token>, p: nat)
    requires level < UNARY && p <= |ts| && OpLevel(KindAt(ts, p)) == level && above == level + 1
    ensures p < |ts|
    ensures var right := ParseAt(above, ts, p + 1);
            ParseLoop(level, left, ts, p) ==
              if right.Failed? then right else ParseLoop(level, Binary(ts[p].kind, left, right.value), ts, right.next)
  {
  }

  lemma {:induction false} LoopEnd(level: nat, left: Expr, ts: seq<Token>, p: nat)
    requires level < UNARY && p <= |ts| && OpLevel(KindAt(ts, p)) != level
    ensures ParseLoop(level, left, ts, p) == Done(left, p)
  {
  }

  lemma {:induction false} UnaryStep(ts: seq<Token>, p: nat)
    requires p <= |ts|
    ensures !IsUnary(KindAt(ts, p)) ==> ParseAt(UNARY, ts, p) == ParseAt(PRIMARY, ts, p)
    ensures IsUnary(KindAt(ts, p)) ==>
              var r := ParseAt(UNARY, ts, p + 1);
              ParseAt(UNARY, ts, p) == if r.Failed? then r else Done(Unary(ts[p].kind, r.value), r.next)
  {
    hide ParsePrimary;
  }

  lemma {:induction false} PrimaryStep(ts: seq<Token>, p: nat)
    requires p <= |ts|
    ensures KindAt(ts, p) == NUMBER ==>
              ParseAt(PRIMARY, ts, p) ==
                if Stoll(ts[p].content).None? then Failed(BadNumber)
                  else Done(IntLiteral(Stoll(ts[p].content).value), p + 1)
    ensures KindAt(ts, p) == IDENT && KindAt(ts, p + 1) == COLON ==>
              var r := ParseArgs([], ts, p + 2);
              ParseAt(PRIMARY, ts, p) == if r.Failed? then Failed(r.error)
                else Done(FuncCall(ts[p].content, r.value), r.next)
    ensures KindAt(ts, p) == IDENT && KindAt(ts, p + 1) == EQ ==>
              var r := ParseAt(LOGICAL, ts, p + 2);
              ParseAt(PRIMARY, ts, p) == if r.Failed? then r else Done(Assign(ts[p].content, r.value), r.next)
    ensures KindAt(ts, p) == IDENT && KindAt(ts, p + 1) != COLON && KindAt(ts, p + 1) != EQ ==>
              ParseAt(PRIMARY, ts, p) == Done(Identifier(ts[p].content), p + 1)
    ensures KindAt(ts, p) == L_PAREN ==>
              var r := ParseAt(LOGICAL, ts, p + 1);
              ParseAt(PRIMARY, ts, p) ==
                if r.Failed? then r
                else if Expect(ts, r.next, R_PAREN).Some? then Failed(Expect(ts, r.next, R_PAREN).value)
                else Done(r.value, r.next + 1)
    ensures KindAt(ts, p) != NUMBER && KindAt(ts, p) != IDENT && KindAt(ts, p) != L_PAREN ==>
              ParseAt(PRIMARY, ts, p) == Failed(UnexpectedToken)
  {
    hide ParseArgs, ParseLoop, Stoll, Expect;
  }

  lemma {:induction false} ArgsStep(args: seq<Expr>, ts: seq<Token>, p: nat)
    requires p <= |ts|
    ensures KindAt(ts, p) == SEMICOLON ==> ParseArgs(args, ts, p) == Done(args, p + 1)
    ensures KindAt(ts, p) != SEMICOLON ==>
              var a := ParseAt(LOGICAL, ts, p);
              ParseArgs(args, ts, p) ==
                if a.Failed? then Failed(a.error)
                else if KindAt(ts, a.next) == COMMA then ParseArgs(args + [a.value], ts, a.next + 1)
                else if KindAt(ts, a.next) == SEMICOLON then ParseArgs(args + [a.value], ts, a.next)
                else Failed(ExpectedSeparator)
  {
    hide ParseAt;
  }

  // ---------- statements ----------

  predicate StartsStmt(k: TokenType) {
    k == VAR || k == L_CURL_BRKT || k == IF || k == IDENT
  }

  function ParseVarDecl(ts: seq<Token>, p: nat): (r: Parsed<Stmt>)
    requires p <= |ts|
    ensures r.Done? ==> p < r.next <= |ts|
  {
    var e0, e1 := Expect(ts, p, VAR), Expect(ts, p + 1, IDENT);
    if e0.Some? then Failed(e0.value)
    else if e1.Some? then Failed(e1.value)
    else
      var q := if KindAt(ts, p + 2) == ARR_RIGHT then p + 4 else p + 2;
      var e2 := Expect(ts, q, EQ);
      if e2.Some? then Failed(e2.value)
      else
        var value := ParseAt(LOGICAL, ts, q + 1);
        if value.Failed? then Failed(value.error) else Done(VarDecl(ts[p + 1].content, value.value), value.next)
  }

  function ParseStmt(ts: seq<Token>, p: nat): (r: Parsed<Stmt>)
    requires p < |ts| && StartsStmt(ts[p].kind)
    ensures r.Done? ==> p < r.next <= |ts|
    decreases |ts| - p, 2
  {
    match ts[p].kind
    case VAR => ParseVarDecl(ts, p)
    case L_CURL_BRKT =>
      var b := ParseBlock(ts, p);
      if b.Failed? then Failed(b.error) else Done(Block(b.value), b.next)
    case IF => ParseIf(ts, p)
    case IDENT =>
      var e := ParseAt(PRIMARY, ts, p);
      if e.Failed? then Failed(e.error) else Done(ExprStmt(e.value), e.next)
  }

  function ParseBlock(ts: seq<Token>, p: nat): (r: Parsed<seq<Stmt>>)
    requires p <= |ts|
    ensures r.Done? ==> p < r.next <= |ts|
    decreases |ts| - p, 1
  {
    var e := Expect(ts, p, L_CURL_BRKT);
    if e.Some? then Failed(e.value) else ParseBody([], ts, p + 1)
  }

  // Statements up to and with the closing bracket; any other token is skipped.
  function ParseBody(body: seq<Stmt>, ts: seq<Token>, p: nat): (r: Parsed<seq<Stmt>>)
    requires p <= |ts|
    ensures r.Done? ==> p < r.next <= |ts|
    decreases |ts| - p, 3
  {
    var k := KindAt(ts, p);
    if k == R_CURL_BRKT then Done(body, p + 1)
    else if k == END_OF_FILE then Failed(UnclosedBlock)
    else if StartsStmt(k) then
      var s := ParseStmt(ts, p);
      if s.Failed? then Failed(s.error) else ParseBody(body + [s.value], ts, s.next)
    else ParseBody(body, ts, p + 1)
  }

  lemma {:induction false} BodyStep(body: seq<Stmt>, ts: seq<Token>, p: nat)
    requires p <= |ts|
    ensures KindAt(ts, p) == R_CURL_BRKT ==> ParseBody(body, ts, p) == Done(body, p + 1)
    ensures KindAt(ts, p) == END_OF_FILE ==> ParseBody(body, ts, p) == Failed(UnclosedBlock)
    ensures StartsStmt(KindAt(ts, p)) ==>
              var s := ParseStmt(ts, p);
              ParseBody(body, ts, p) == if s.Failed? then Failed(s.error) else ParseBody(body + [s.value], ts, s.next)
    ensures KindAt(ts, p) != R_CURL_BRKT && KindAt(ts, p) != END_OF_FILE && !StartsStmt(KindAt(ts, p)) ==>
              ParseBody(body, ts, p) == ParseBody(body, ts, p + 1)
  {
    hide ParseStmt;
  }

  function ParseIf(ts: seq<Token>, p: nat): (r: Parsed<Stmt>)
    requires p <= |ts|
    ensures r.Done? ==> p < r.next <= |ts|
    decreases |ts| - p, 1
  {
    var e0, e1 := Expect(ts, p, IF), Expect(ts, p + 1, L_PAREN);
    if e0.Some? then Failed(e0.value)
    else if e1.Some? then Failed(e1.value)
    else
      var cond := ParseAt(LOGICAL, ts, p + 2);
      if cond.Failed? then Failed(cond.error)
      else
        var e2 := Expect(ts, cond.next, R_PAREN);
        if e2.Some? then Failed(e2.value)
        else
          var yes := ParseBlock(ts, cond.next + 1);
          if yes.Failed? then Failed(yes.error)
          else if KindAt(ts, yes.next) != ELSE then Done(IfElse(cond.value, yes.value, NoElse), yes.next)
          else
            var no := ParseBlock(ts, yes.next + 1);
            if no.Failed? then Failed(no.error) else Done(IfElse(cond.value, yes.value, Else(no.value)), no.next)
  }

  // The condition and the first block of an if statement parse.
  predicate ThenParsed(ts: seq<Token>, p: nat) {
    p + 2 <= |ts| && At(ts, p + 1, L_PAREN) && ParseAt(LOGICAL, ts, p + 2).Done? &&
    var m := ParseAt(LOGICAL, ts, p + 2).next;
    At(ts, m, R_PAREN) && ParseBlock(ts, m + 1).Done?
  }

  lemma {:induction false} ExpectSeen(ts: seq<Token>, p: nat, k: TokenType)
    requires KindAt(ts, p) == k != END_OF_FILE
    ensures Expect(ts, p, k) == None
  {
  }

  lemma {:induction false} IfStep(ts: seq<Token>, p: nat)
    requires At(ts, p, IF)
    ensures ParseIf(ts, p).Done? ==> ThenParsed(ts, p)
    ensures ThenParsed(ts, p) ==>
              var cond := ParseAt(LOGICAL, ts, p + 2);
              var yes := ParseBlock(ts, cond.next + 1);
              ParseIf(ts, p) ==
                if KindAt(ts, yes.next) != ELSE then Done(IfElse(cond.value, yes.value, NoElse), yes.next)
                else
                  var no := ParseBlock(ts, yes.next + 1);
                  if no.Failed? then Failed(no.error) else Done(IfElse(cond.value, yes.value, Else(no.value)), no.next)
  {
    hide ParseAt, ParseBlock;
  }

  lemma {:induction false} StmtStep(ts: seq<Token>, p: nat)
    requires p < |ts|
    ensures ts[p].kind == VAR ==> ParseStmt(ts, p) == ParseVarDecl(ts, p)
    ensures ts[p].kind == IF ==> ParseStmt(ts, p) == ParseIf(ts, p)
    ensures ts[p].kind == L_CURL_BRKT ==>
              var b := ParseBlock(ts, p);
              ParseStmt(ts, p) == if b.Failed? then Failed(b.error) else Done(Block(b.value), b.next)
    ensures ts[p].kind == IDENT ==>
              var e := ParseAt(PRIMARY, ts, p);
              ParseStmt(ts, p) == if e.Failed? then Failed(e.error) else Done(ExprStmt(e.value), e.next)
  {
    hide ParseAt, ParseBlock, ParseIf, ParseVarDecl;
  }

  // Statements up to the end; any other token is skipped.
  function ParseFrom(program: seq<Stmt>, ts: seq<Token>, p: nat): (r: Parsed<seq<Stmt>>)
    requires p <= |ts|
    ensures r.Done? ==> r.next == |ts|
    decreases |ts| - p
  {
    if p == |ts| then Done(program, p)
    else if StartsStmt(ts[p].kind) then
      var s := ParseStmt(ts, p);
      if s.Failed? then Failed(s.error) else ParseFrom(program + [s.value], ts, s.next)
    else ParseFrom(program, ts, p + 1)
  }

  function ParseProgram(ts: seq<Token>): (r: Parsed<seq<Stmt>>)
    ensures r.Done? ==> r.next == |ts|
  {
    ParseFrom([], ts, 0)
  }
}

// The recursive-descent parser over a mutable cursor.
module Parser {
  import opened Wrappers
  import opened Tokens
  import opened Ast
  import opened Numerals
  import opened Parsing

  // A result together with where the cursor stands.
  function Ended<T>(r: Result<T, ParseError>, at: nat): Parsed<T> {
    if r.Ok? then Done(r.value, at) else Failed(r.error)
  }

  class TokenSource {
    const tokens: seq<Token>
    var pos: nat

    constructor (ts: seq<Token>)
      ensures tokens == ts && pos == 0
    {
      tokens := ts;
      pos := 0;
    }

    method Advance() returns (t: Token)
      requires pos <= |tokens|
      modifies `pos
      ensures if old(pos) < |tokens| then t == tokens[old(pos)] && pos == old(pos) + 1
              else t == Token(END_OF_FILE, "") && pos == old(pos)
    {
      if pos >= |tokens| {
        return Token(END_OF_FILE, "");
      }
      t := tokens[pos];
      pos := pos + 1;
    }

    method Expect(k: TokenType) returns (r: Result<Token, ParseError>)
      requires pos <= |tokens|
      modifies `pos
      ensures match Parsing.Expect(tokens, old(pos), k)
              case None => old(pos) < |tokens| && r == Ok(tokens[old(pos)]) && pos == old(pos) + 1
              case Some(e) => r == Err(e) && pos == old(pos)
    {
      if pos >= |tokens| {
        return Err(UnexpectedEnd);
      }
      if tokens[pos].kind != k {
        return Err(OtherExpected);
      }
      r := Ok(tokens[pos]);
      pos := pos + 1;
    }

    method ParsePrimary() returns (r: Result<Expr, ParseError>)
      requires pos <= |tokens|
      modifies `pos
      ensures pos <= |tokens| && Ended(r, pos) == ParseAt(PRIMARY, tokens, old(pos))
      decreases |tokens| - pos, 0
    {
      hide ParseLoop, ParseArgs, Stoll, OpLevel;
      if KindAt(tokens, pos) == NUMBER {
        var t := Advance();
        var n := Stoll(t.content);
        return if n.None? then Err(BadNumber) else Ok(IntLiteral(n.value));
      }
      if KindAt(tokens, pos) == IDENT {
        var t := Advance();
        if KindAt(tokens, pos) == COLON {
          var _ := Advance();
          var args := ParseArguments();
          return if args.Err? then Err(args.error) else Ok(FuncCall(t.content, args.value));
        }
        if KindAt(tokens, pos) == EQ {
          var _ := Expect(EQ);
          var e := ParseExpression();
          return if e.Err? then e else Ok(Assign(t.content, e.value));
        }
        return Ok(Identifier(t.content));
      }
      if KindAt(tokens, pos) == L_PAREN {
        var _ := Advance();
        var inner := ParseExpression();
        if inner.Err? {
          return inner;
        }
        var close := Expect(R_PAREN);
        return if close.Err? then Err(close.error) else inner;
      }
      return Err(UnexpectedToken);
    }

    method ParseArguments() returns (r: Result<seq<Expr>, ParseError>)
      requires pos <= |tokens|
      modifies `pos
      ensures pos <= |tokens| && Ended(r, pos) == ParseArgs([], tokens, old(pos))
      decreases |tokens| - pos, 8
    {
      hide ParseAt;
      var args: seq<Expr> := [];
      while KindAt(tokens, pos) != SEMICOLON
        invariant old(pos) <= pos <= |tokens|
        invariant ParseArgs(args, tokens, pos) == ParseArgs([], tokens, old(pos))
        decreases |tokens| - pos
      {
        var a := ParseExpression();
        if a.Err? {
          return Err(a.error);
        }
        args := args + [a.value];
        if KindAt(tokens, pos) == COMMA {
          var _ := Advance();
        } else if KindAt(tokens, pos) != SEMICOLON {
          return Err(ExpectedSeparator);
        }
      }
      var _ := Advance();
      return Ok(args);
    }

    method ParseUnary() returns (r: Result<Expr, ParseError>)
      requires pos <= |tokens|
      modifies `pos
      ensures pos <= |tokens| && Ended(r, pos) == ParseAt(UNARY, tokens, old(pos))
      decreases |tokens| - pos, 2
    {
      hide Parsing.ParsePrimary;
      if KindAt(tokens, pos) == MINUS || KindAt(tokens, pos) == NOT {
        var op := Advance();
        var operand := ParseUnary();
        return if operand.Err? then operand else Ok(Unary(op.kind, operand.value));
      }
      r := ParsePrimary();
    }

    method ParseMultiplicative() returns (r: Result<Expr, ParseError>)
      requires pos <= |tokens|
      modifies `pos
      ensures pos <= |tokens| && Ended(r, pos) == ParseAt(MULTIPLICATIVE, tokens, old(pos))
      decreases |tokens| - pos, 3
    {
      hide ParseAt, ParseLoop, OpLevel, KindAt, IsMultiplicative;
      AtStep(MULTIPLICATIVE, UNARY, tokens, pos);
      r := ParseUnary();
      if r.Err? {
        return;
      }
      var left := r.value;
      while IsMultiplicative(KindAt(tokens, pos))
        invariant old(pos) < pos <= |tokens|
        invariant ParseLoop(MULTIPLICATIVE, left, tokens, pos) == ParseAt(MULTIPLICATIVE, tokens, old(pos))
        decreases |tokens| - pos
      {
        LevelKinds(KindAt(tokens, pos));
        LoopStep(MULTIPLICATIVE, UNARY, left, tokens, pos);
        var op := Advance();
        var right := ParseUnary();
        if right.Err? {
          return right;
        }
        left := Binary(op.kind, left, right.value);
      }
      LevelKinds(KindAt(tokens, pos));
      LoopEnd(MULTIPLICATIVE, left, tokens, pos);
      return Ok(left);
    }

    method ParseAdditive() returns (r: Result<Expr, ParseError>)
      requires pos <= |tokens|
      modifies `pos
      ensures pos <= |tokens| && Ended(r, pos) == ParseAt(ADDITIVE, tokens, old(pos))
      decreases |tokens| - pos, 4
    {
      hide ParseAt, ParseLoop, OpLevel, KindAt, IsAdditive;
      AtStep(ADDITIVE, MULTIPLICATIVE, tokens, pos);
      r := ParseMultiplicative();
      if r.Err? {
        return;
      }
      var left := r.value;
      while IsAdditive(KindAt(tokens, pos))
        invariant old(pos) < pos <= |tokens|
        invariant ParseLoop(ADDITIVE, left, tokens, pos) == ParseAt(ADDITIVE, tokens, old(pos))
        decreases |tokens| - pos
      {
        LevelKinds(KindAt(tokens, pos));
        LoopStep(ADDITIVE, MULTIPLICATIVE, left, tokens, pos);
        var op := Advance();
        var right := ParseMultiplicative();
        if right.Err? {
          return right;
        }
        left := Binary(op.kind, left, right.value);
      }
      LevelKinds(KindAt(tokens, pos));
      LoopEnd(ADDITIVE, left, tokens, pos);
      return Ok(left);
    }

    method ParseComparison() returns (r: Result<Expr, ParseError>)
      requires pos <= |tokens|
      modifies `pos
      ensures pos <= |tokens| && Ended(r, pos) == ParseAt(COMPARISON, tokens, old(pos))
      decreases |tokens| - pos, 5
    {
      hide ParseAt, ParseLoop, OpLevel, KindAt, IsComparison;
      AtStep(COMPARISON, ADDITIVE, tokens, pos);
      r := ParseAdditive();
      if r.Err? {
        return;
      }
      var left := r.value;
      while IsComparison(KindAt(tokens, pos))
        invariant old(pos) < pos <= |tokens|
        invariant ParseLoop(COMPARISON, left, tokens, pos) == ParseAt(COMPARISON, tokens, old(pos))
        decreases |tokens| - pos
      {
        LevelKinds(KindAt(tokens, pos));
        LoopStep(COMPARISON, ADDITIVE, left, tokens, pos);
        var op := Advance();
        var right := ParseAdditive();
        if right.Err? {
          return right;
        }
        left := Binary(op.kind, left, right.value);
      }
      LevelKinds(KindAt(tokens, pos));
      LoopEnd(COMPARISON, left, tokens, pos);
      return Ok(left);
    }

    method ParseLogical() returns (r: Result<Expr, ParseError>)
      requires pos <= |tokens|
      modifies `pos
      ensures pos <= |tokens| && Ended(r, pos) == ParseAt(LOGICAL, tokens, old(pos))
      decreases |tokens| - pos, 6
    {
      hide ParseAt, ParseLoop, OpLevel, KindAt, IsLogical;
      AtStep(LOGICAL, COMPARISON, tokens, pos);
      r := ParseComparison();
      if r.Err? {
        return;
      }
      var left := r.value;
      while IsLogical(KindAt(tokens, pos))
        invariant old(pos) < pos <= |tokens|
        invariant ParseLoop(LOGICAL, left, tokens, pos) == ParseAt(LOGICAL, tokens, old(pos))
        decreases |tokens| - pos
      {
        LevelKinds(KindAt(tokens, pos));
        LoopStep(LOGICAL, COMPARISON, left, tokens, pos);
        var op := Advance();
        var right := ParseComparison();
        if right.Err? {
          return right;
        }
        left := Binary(op.kind, left, right.value);
      }
      LevelKinds(KindAt(tokens, pos));
      LoopEnd(LOGICAL, left, tokens, pos);
      return Ok(left);
    }

    method ParseExpression() returns (r: Result<Expr, ParseError>)
      requires pos <= |tokens|
      modifies `pos
      ensures pos <= |tokens| && Ended(r, pos) == ParseAt(LOGICAL, tokens, old(pos))
      decreases |tokens| - pos, 7
    {
      r := ParseLogical();
    }

    method ParseVarDecl() returns (r: Result<Stmt, ParseError>)
      requires pos <= |tokens|
      modifies `pos
      ensures pos <= |tokens| && Ended(r, pos) == Parsing.ParseVarDecl(tokens, old(pos))
    {
      hide ParseAt;
      var start := Expect(VAR);
      if start.Err? {
        return Err(start.error);
      }
      var name := Expect(IDENT);
      if name.Err? {
        return Err(name.error);
      }
      if KindAt(tokens, pos) == ARR_RIGHT {
        var _ := Advance();
        var _ := Advance();
      }
      var eq := Expect(EQ);
      if eq.Err? {
        return Err(eq.error);
      }
      var e := ParseExpression();
      return if e.Err? then Err(e.error) else Ok(VarDecl(name.value.content, e.value));
    }

    // One arm of the statement switch.
    method ParseStatement() returns (r: Result<Stmt, ParseError>)
      requires pos < |tokens| && StartsStmt(tokens[pos].kind)
      modifies `pos
      ensures pos <= |tokens| && Ended(r, pos) == ParseStmt(tokens, old(pos))
      decreases |tokens| - pos, 2
    {
      hide ParseAt, Parsing.ParseBlock, ParseIf, Parsing.ParseVarDecl;
      match KindAt(tokens, pos)
      case VAR => r := ParseVarDecl();
      case L_CURL_BRKT =>
        var b := ParseBlock();
        r := if b.Err? then Err(b.error) else Ok(Block(b.value));
      case IF => r := ParseIfStmt();
      case IDENT =>
        var e := ParsePrimary();
        r := if e.Err? then Err(e.error) else Ok(ExprStmt(e.value));
    }

    method ParseBlock() returns (r: Result<seq<Stmt>, ParseError>)
      requires pos <= |tokens|
      modifies `pos
      ensures pos <= |tokens| && Ended(r, pos) == Parsing.ParseBlock(tokens, old(pos))
      decreases |tokens| - pos, 1
    {
      hide ParseBody, ParseAt;
      var open := Expect(L_CURL_BRKT);
      if open.Err? {
        return Err(open.error);
      }
      r := ParseStatements();
    }

    // The loop of parseBlock, with the closing bracket.
    method ParseStatements() returns (r: Result<seq<Stmt>, ParseError>)
      requires pos <= |tokens|
      modifies `pos
      ensures pos <= |tokens| && Ended(r, pos) == ParseBody([], tokens, old(pos))
      decreases |tokens| - pos, 3
    {
      hide ParseStmt, ParseBody, StartsStmt;
      var block: seq<Stmt> := [];
      while KindAt(tokens, pos) != R_CURL_BRKT
        invariant old(pos) <= pos <= |tokens|
        invariant ParseBody(block, tokens, pos) == ParseBody([], tokens, old(pos))
        decreases |tokens| - pos
      {
        BodyStep(block, tokens, pos);
        if KindAt(tokens, pos) == END_OF_FILE {
          return Err(UnclosedBlock);
        }
        if StartsStmt(KindAt(tokens, pos)) {
          var s := ParseStatement();
          if s.Err? {
            return Err(s.error);
          }
          block := block + [s.value];
        } else {
          var _ := Advance();
        }
      }
      BodyStep(block, tokens, pos);
      var _ := Expect(R_CURL_BRKT);
      return Ok(block);
    }

    method ParseIfStmt() returns (r: Result<Stmt, ParseError>)
      requires pos <= |tokens|
      modifies `pos
      ensures pos <= |tokens| && Ended(r, pos) == ParseIf(tokens, old(pos))
      decreases |tokens| - pos, 1
    {
      hide ParseAt, Parsing.ParseBlock, ParseBody, ParseLoop, ParseStmt, Parsing.Expect, KindAt;
      var start := Expect(IF);
      if start.Err? {
        return Err(start.error);
      }
      var open := Expect(L_PAREN);
      if open.Err? {
        return Err(open.error);
      }
      var cond := ParseExpression();
      if cond.Err? {
        return Err(cond.error);
      }
      var close := Expect(R_PAREN);
      if close.Err? {
        return Err(close.error);
      }
      var yes := ParseBlock();
      if yes.Err? {
        return Err(yes.error);
      }
      if KindAt(tokens, pos) != ELSE {
        return Ok(IfElse(cond.value, yes.value, NoElse));
      }
      ExpectSeen(tokens, pos, ELSE);
      var _ := Expect(ELSE);
      var no := ParseBlock();
      return if no.Err? then Err(no.error) else Ok(IfElse(cond.value, yes.value, Else(no.value)));
    }

    method ParseProgram() returns (r: Result<seq<Stmt>, ParseError>)
      requires pos == 0
      modifies `pos
      ensures pos <= |tokens| && Ended(r, pos) == Parsing.ParseProgram(tokens)
    {
      hide ParseStmt;
      var program: seq<Stmt> := [];
      while pos < |tokens|
        invariant pos <= |tokens|
        invariant ParseFrom(program, tokens, pos) == Parsing.ParseProgram(tokens)
        decreases |tokens| - pos
      {
        if StartsStmt(tokens[pos].kind) {
          var s := ParseStatement();
          if s.Err? {
            return Err(s.error);
          }
          program := program + [s.value];
        } else {
          var _ := Advance();
        }
      }
      return Ok(program);
    }
  }
}
