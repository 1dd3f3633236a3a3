// Optional values and results that may carry an error.
module Wrappers {
  datatype Option<+T> = None | Some(value: T)

  datatype Result<+T, +E> = Ok(value: T) | Err(error: E)
}

// NaN-boxed 64-bit words (src/shared/values.h) and exact 48-bit arithmetic on them.
//
// A word is a number below 2^64.  The bit expressions of the source are written as
// division and remainder by powers of two: `v & NAN_PAYLOAD` is v % 2^48, `(v >> 48) & 0xF`
// is (v / 2^48) % 16, and `(v & NAN_BASE) != NAN_BASE` says that the eleven bits above
// bit 51 are not all ones (the exponent of IEEE 754-2019, section 3.4).
module Words {
  import opened Wrappers

  const TWO32: int := 0x1_0000_0000
  const TWO47: int := 0x8000_0000_0000
  const TWO48: int := 0x1_0000_0000_0000
  const TWO52: int := 0x10_0000_0000_0000
  const TWO63: int := 0x8000_0000_0000_0000
  const TWO64: int := 0x1_0000_0000_0000_0000
  const NAN_BASE: int := 0x7FF0_0000_0000_0000

  const TAG_INT48: int := 1
  const TAG_POINTER: int := 2
  const TAG_BOOL: int := 3
  const TAG_CHAR6: int := 4
  const TAG_NULL: int := 5

  type Word = w: int | 0 <= w < 0x1_0000_0000_0000_0000

  // ---------- predicates ----------

  predicate IsDouble(v: Word) {
    (v / TWO52) % 2048 != 2047
  }

  function GetTag(v: Word): int {
    (v / TWO48) % 16
  }

  predicate IsInt(v: Word) {
    !IsDouble(v) && GetTag(v) == TAG_INT48
  }

  predicate IsPointer(v: Word) {
    !IsDouble(v) && GetTag(v) == TAG_POINTER
  }

  predicate IsBool(v: Word) {
    !IsDouble(v) && GetTag(v) == TAG_BOOL
  }

  predicate IsChar6(v: Word) {
    !IsDouble(v) && GetTag(v) == TAG_CHAR6
  }

  // ---------- boxing ----------

  function Payload(v: Word): nat {
    v % TWO48
  }

  // NAN_BASE | (tag << 48) | (payload & NAN_PAYLOAD); the three parts share no bit.
  function Box(tag: nat, payload: int): (v: Word)
    requires tag < 16
    ensures !IsDouble(v)
    ensures GetTag(v) == tag
    ensures Payload(v) == payload % TWO48
  {
    NAN_BASE + tag * TWO48 + payload % TWO48
  }

  function EncodeInt(n: int): Word {
    Box(TAG_INT48, n)
  }

  function DecodeInt(v: Word): int {
    var p := Payload(v);
    if p < TWO47 then p else p - TWO48
  }

  function EncodePointer(a: int): Word {
    Box(TAG_POINTER, a)
  }

  function DecodePointer(v: Word): nat {
    Payload(v)
  }

  function EncodeBool(b: bool): Word {
    Box(TAG_BOOL, if b then 1 else 0)
  }

  function DecodeBool(v: Word): bool {
    v % 2 == 1
  }

  // The signed 48-bit number congruent to n modulo 2^48.
  function Wrap48(n: int): (r: int)
    ensures -TWO47 <= r < TWO47
    ensures (r - n) % TWO48 == 0
    ensures -TWO47 <= n < TWO47 ==> r == n
  {
    var p := n % TWO48;
    if p < TWO47 then p else p - TWO48
  }

  // The tag test puts every word into exactly one class, and boxing is invertible on each.
  lemma {:induction false} BoxingRoundTrip(n: int, a: int, b: bool)
    ensures IsInt(EncodeInt(n)) && DecodeInt(EncodeInt(n)) == Wrap48(n)
    ensures IsPointer(EncodePointer(a)) && DecodePointer(EncodePointer(a)) == a % TWO48
    ensures IsBool(EncodeBool(b)) && DecodeBool(EncodeBool(b)) == b
    ensures !IsPointer(EncodeInt(n)) && !IsPointer(EncodeBool(b))
  {
    assert EncodeBool(b) % 2 == (if b then 1 else 0);
  }

  // A word by its fields: sign, eleven bits of exponent, four of tag, 48 of payload.  All ones in the
  // exponent, with either sign, make it boxed; then the tag says what it holds.
  lemma {:induction false} WordFields(w: Word, sign: nat, exponent: nat, tag: nat, p: nat)
    requires sign < 2 && exponent < 2048 && tag < 16 && p < 0x1_0000_0000_0000
    requires w == sign * 0x8000_0000_0000_0000 + exponent * 0x10_0000_0000_0000 + tag * 0x1_0000_0000_0000 + p
    ensures IsDouble(w) <==> exponent != 0x7FF
    ensures IsInt(w) <==> exponent == 0x7FF && tag == 1
    ensures IsPointer(w) <==> exponent == 0x7FF && tag == 2
    ensures IsBool(w) <==> exponent == 0x7FF && tag == 3
    ensures IsChar6(w) <==> exponent == 0x7FF && tag == 4
    ensures Payload(w) == DecodePointer(w) == p && (DecodeBool(w) <==> p % 2 == 1)
    ensures DecodeInt(w) == if p < 0x8000_0000_0000 then p else p - 0x1_0000_0000_0000
  {
    assert w / TWO48 == sign * 0x8000 + exponent * 16 + tag;
    assert w / TWO52 == sign * 2048 + exponent;
    assert w % TWO48 == p;
    assert w % 2 == p % 2;
  }

  // The boxes, bit by bit.
  lemma {:induction false} BoxedWords(n: int, a: nat, b: bool)
    requires a < 0x1_0000_0000_0000
    ensures 0 <= n < 0x8000_0000_0000 ==> EncodeInt(n) == 0x7FF1_0000_0000_0000 + n
    ensures -0x8000_0000_0000 <= n < 0 ==> EncodeInt(n) == 0x7FF2_0000_0000_0000 + n
    ensures EncodePointer(a) == 0x7FF2_0000_0000_0000 + a
    ensures EncodeBool(b) == if b then 0x7FF3_0000_0000_0001 else 0x7FF3_0000_0000_0000
  {
  }

  // Every word below 2^52 is read as a (denormal) double: saved FP and IP words are.
  lemma {:induction false} SmallWordsAreDoubles(v: Word)
    requires v < TWO52
    ensures IsDouble(v) && !IsPointer(v)
  {
  }

  // ---------- integer arithmetic ----------

  datatype ArithOp = Add | Sub | Mul | Div

  // C++ integer division truncates toward zero.
  function TruncDiv(a: int, b: int): int
    requires b != 0
  {
    if a >= 0 then (if b > 0 then a / b else -(a / -b))
    else if b > 0 then -(-a / b) else -a / -b
  }

  predicate InInt64(n: int) {
    -TWO63 <= n < TWO63
  }

  function MathOp(op: ArithOp, a: int, b: int): int
    requires op == Div ==> b != 0
  {
    match op
    case Add => a + b
    case Sub => a - b
    case Mul => a * b
    case Div => TruncDiv(a, b)
  }

  // What `add`, `sub`, `mul`, `div` do on two boxed ints; None where the int64 operation is
  // undefined (signed overflow, division by zero).
  function IntOp(op: ArithOp, a: Word, b: Word): Option<Word> {
    var da, db := DecodeInt(a), DecodeInt(b);
    if op == Div && db == 0 then None
    else
      var res := MathOp(op, da, db);
      if InInt64(res) then Some(EncodeInt(res)) else None
  }

  // ---------- exactness modulo 2^48 ----------

  predicate Congruent(a: int, b: int) {
    (a - b) % TWO48 == 0
  }

  lemma {:induction false} WrapUnique(a: int, b: int)
    requires Congruent(a, b)
    ensures Wrap48(a) == Wrap48(b)
  {
  }

  lemma {:induction false} MulMultiple(x: int, y: int)
    requires x % TWO48 == 0
    ensures (x * y) % TWO48 == 0
  {
    var k := x / TWO48;
    assert x * y == TWO48 * (k * y) by {
      assert x == k * TWO48;
    }
    assert (TWO48 * (k * y)) % TWO48 == 0;
  }

  lemma {:induction false} SumMultiple(p: int, q: int)
    requires p % TWO48 == 0 && q % TWO48 == 0
    ensures (p + q) % TWO48 == 0
  {
  }

  lemma {:induction false} MulCongruent(a: int, a': int, b: int, b': int)
    requires Congruent(a, a') && Congruent(b, b')
    ensures Congruent(a * b, a' * b')
  {
    MulMultiple(a - a', b);
    MulMultiple(b - b', a');
    SumMultiple((a - a') * b, (b - b') * a');
    assert a * b - a' * b' == (a - a') * b + (b - b') * a';
  }

  lemma {:induction false} OpCongruent(op: ArithOp, a: int, a': int, b: int, b': int)
    requires op != Div && Congruent(a, a') && Congruent(b, b')
    ensures Congruent(MathOp(op, a, b), MathOp(op, a', b'))
  {
    if op == Mul {
      MulCongruent(a, a', b, b');
    }
  }

  // One operation on boxed ints: a boxed int holding the signed wrap of the true result,
  // and that result itself when it fits in 48 bits.
  lemma {:induction false} IntOpExact(op: ArithOp, a: Word, b: Word)
    requires IntOp(op, a, b).Some?
    ensures var w := IntOp(op, a, b).value; var m := MathOp(op, DecodeInt(a), DecodeInt(b));
            IsInt(w) && DecodeInt(w) == Wrap48(m) && (-TWO47 <= m < TWO47 ==> DecodeInt(w) == m)
  {
    BoxingRoundTrip(MathOp(op, DecodeInt(a), DecodeInt(b)), 0, false);
  }

  // Addition and subtraction never leave the int64 range.
  lemma {:induction false} AddSubDefined(op: ArithOp, a: Word, b: Word)
    requires op == Add || op == Sub
    ensures IntOp(op, a, b).Some?
  {
  }

  // Truncation toward zero: the magnitude is the quotient of the magnitudes.
  lemma {:induction false} TruncDivMagnitude(a: int, b: int)
    requires b != 0
    ensures Abs(TruncDiv(a, b)) == Abs(a) / Abs(b)
    ensures TruncDiv(a, b) > 0 ==> (a > 0 <==> b > 0)
    ensures TruncDiv(a, b) < 0 ==> (a > 0 <==> b < 0)
  {
    DivBounds(Abs(a), Abs(b), Abs(a) / Abs(b));
  }

  lemma {:induction false} MulAtLeast(q: nat, y: nat)
    requires y > 0
    ensures q * y >= q
  {
  }

  lemma {:induction false} DivBounds(x: nat, y: nat, q: int)
    requires y > 0 && q == x / y
    ensures 0 <= q <= x && q * y <= x < q * y + y
  {
    MulAtLeast(q, y);
  }

  function Abs(n: int): nat {
    if n < 0 then -n else n
  }

  // Division of boxed ints is defined exactly for a non-zero divisor.  The decoded quotient is
  // the truncated one except for the minimum over -1, which wraps back to the minimum.
  lemma {:induction false} DivisionExact(a: Word, b: Word)
    ensures IntOp(Div, a, b).Some? <==> DecodeInt(b) != 0
    ensures DecodeInt(b) != 0 ==>
              var q := TruncDiv(DecodeInt(a), DecodeInt(b));
              var r := DecodeInt(IntOp(Div, a, b).value);
              if DecodeInt(a) == -TWO47 && DecodeInt(b) == -1 then q == TWO47 && r == -TWO47 else r == q
  {
    var x, y := DecodeInt(a), DecodeInt(b);
    if y != 0 {
      TruncDivMagnitude(x, y);
      var q := TruncDiv(x, y);
      DivBounds(Abs(x), Abs(y), Abs(x) / Abs(y));
      assert Abs(q) <= Abs(x);
      IntOpExact(Div, a, b);
      if q == TWO47 {
        assert Abs(q) * Abs(y) <= Abs(x);
        assert Abs(x) == TWO47 && x == -TWO47;
      }
    }
  }

  // Whole expressions: boxed evaluation against evaluation over the integers.
  datatype IntExpr = Lit(n: int) | Node(op: ArithOp, left: IntExpr, right: IntExpr)

  predicate DivFree(e: IntExpr) {
    e.Node? ==> e.op != Div && DivFree(e.left) && DivFree(e.right)
  }

  function BoxedEval(e: IntExpr): Option<Word> {
    match e
    case Lit(n) => Some(EncodeInt(n))
    case Node(op, l, r) =>
      var (a, b) := (BoxedEval(l), BoxedEval(r));
      if a.Some? && b.Some? then IntOp(op, a.value, b.value) else None
  }

  function MathEval(e: IntExpr): int
    requires DivFree(e)
  {
    match e
    case Lit(n) => n
    case Node(op, l, r) => MathOp(op, MathEval(l), MathEval(r))
  }

  lemma {:induction false} ExpressionExact(e: IntExpr)
    requires DivFree(e) && BoxedEval(e).Some?
    ensures IsInt(BoxedEval(e).value)
    ensures DecodeInt(BoxedEval(e).value) == Wrap48(MathEval(e))
  {
    match e
    case Lit(n) =>
      BoxingRoundTrip(n, 0, false);
    case Node(op, l, r) =>
      ExpressionExact(l);
      ExpressionExact(r);
      var a, b := BoxedEval(l).value, BoxedEval(r).value;
      IntOpExact(op, a, b);
      OpCongruent(op, DecodeInt(a), MathEval(l), DecodeInt(b), MathEval(r));
      WrapUnique(MathOp(op, DecodeInt(a), DecodeInt(b)), MathEval(e));
  }
}
