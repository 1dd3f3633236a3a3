// The parser (src/compiler/parser.h, src/compiler/parser.cpp).
module Ast {
  import opened Tokens

  datatype Expr =
    | IntLiteral(number: int)
    | Identifier(name: string)
    | Assign(name: string, value: Expr)
    | FuncCall(name: string, args: seq<Expr>)
    | Binary(op: TokenType, left: Expr, right: Expr)
    | Unary(op: TokenType, operand: Expr)

  datatype Stmt =
    | VarDecl(name: string, value: Expr)
    | Block(body: seq<Stmt>)
    | IfElse(cond: Expr, yes: seq<Stmt>, no: ElsePart)
    | ExprStmt(e: Expr)

  // The else block, or a null pointer.
  datatype ElsePart = NoElse | Else(body: seq<Stmt>)

  // What the parser throws.
  datatype ParseError = UnexpectedToken | ExpectedSeparator | UnexpectedEnd | OtherExpected | BadNumber | UnclosedBlock

  datatype Parsed<+T> = Done(value: T, next: nat) | Failed(error: ParseError)
}

// Numbers as text: std::stoll, and its inverse.
module Numerals {
  import opened Wrappers
  import opened Tokens
  import opened Lexing

  const TWO63: int := 0x8000_0000_0000_0000

  function DigitValue(c: char): (n: nat)
    requires IsDigit(c)
    ensures n < 10
  {
    c as int - '0' as int
  }

  function Value(t: string): nat
    requires forall k :: 0 <= k < |t| ==> IsDigit(t[k])
  {
    if t == "" then 0 else 10 * Value(t[..|t| - 1]) + DigitValue(t[|t| - 1])
  }

  // Leading whitespace, a sign, then as many digits as there are; None is an exception.
  function Stoll(t: string): Option<int> {
    var a := RunEnd(t, 0, IsSpace);
    var b := if Peek(t, a) == '-' || Peek(t, a) == '+' then a + 1 else a;
    var c := RunEnd(t, b, IsDigit);
    if b == c then None
    else
      var v: int := Value(t[b..c]);
      var n := if Peek(t, a) == '-' then -v else v;
      if -TWO63 <= n < TWO63 then Some(n) else None
  }

  function DigitChar(n: nat): (c: char)
    requires n < 10
    ensures IsDigit(c) && DigitValue(c) == n
  {
    '0' + n as char
  }

  function Show(n: nat): (t: string)
    ensures t != "" && forall k :: 0 <= k < |t| ==> IsDigit(t[k])
  {
    (if n < 10 then "" else Show(n / 10)) + [DigitChar(n % 10)]
  }

  function ShowInt(n: int): string {
    if n < 0 then "-" + Show(-n) else Show(n)
  }

  lemma {:induction false} ShowValue(n: nat)
    ensures Value(Show(n)) == n
  {
    var t := Show(n);
    if n >= 10 {
      ShowValue(n / 10);
      assert t[..|t| - 1] == Show(n / 10);
    } else {
      assert t[..|t| - 1] == "";
    }
  }

  lemma {:induction false} RunToEnd(t: string, b: nat)
    requires b <= |t| && forall k :: b <= k < |t| ==> IsDigit(t[k])
    ensures RunEnd(t, b, IsDigit) == |t|
  {
  }

  // A sign, if any, and digits.
  lemma {:induction false} StollSigned(sign: string, digits: string)
    requires (sign == "" || sign == "-") && digits != "" && forall k :: 0 <= k < |digits| ==> IsDigit(digits[k])
    requires var n: int := Value(digits); -TWO63 <= (if sign == "" then n else -n) < TWO63
    ensures Stoll(sign + digits) == Some(if sign == "" then Value(digits) else -(Value(digits) as int))
  {
    hide RunEnd, Value;
    var t, b := sign + digits, |sign|;
    assert t[b..|t|] == digits;
    forall k | b <= k < |t| ensures IsDigit(t[k]) {
      assert t[k] == digits[k - b];
    }
    RunToEnd(t, b);
    NoRun(t);
    assert sign == "-" ==> Peek(t, 0) == '-';
    assert sign == "" ==> IsDigit(Peek(t, 0));
  }

  lemma {:induction false} NoRun(t: string)
    requires t != "" && !IsSpace(t[0])
    ensures RunEnd(t, 0, IsSpace) == 0
  {
  }

  // Every int64 is read back from its decimal text.
  lemma {:induction false} DecimalRoundTrip(n: int)
    requires -TWO63 <= n < TWO63
    ensures Stoll(ShowInt(n)) == Some(n)
  {
    hide Stoll, Show, Value;
    if n < 0 {
      ShowValue(-n);
      StollSigned("-", Show(-n));
    } else {
      ShowValue(n);
      StollSigned("", Show(n));
      assert "" + Show(n) == Show(n);
    }
  }
}

