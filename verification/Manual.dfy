// The instruction set as the machine carries it out on bytes: for every opcode, by its number, what
// one turn of the loop leaves in registers, flag, stack, output and position
// (src/shared/opcodes.h, src/vm/execution.cpp, src/vm/execution.h).
module Manual {
  import opened Words
  import opened Wrappers
  import opened Bytes
  import opened Isa
  import opened Literals
  import opened Assembly
  import opened Space
  import opened Collector
  import opened HeapOps
  import opened Machine
  import opened VmSpec
  import opened Reference
  import opened Instructions

  // The four bytes at ip.
  predicate Reads(ld: Loaded, v: Vm, op: Byte, a: Byte, b: Byte, c: Byte) {
    v.ip + 4 <= |ld.bytes| && ld.bytes[v.ip] == op && ld.bytes[v.ip + 1] == a && ld.bytes[v.ip + 2] == b &&
    ld.bytes[v.ip + 3] == c
  }

  lemma {:induction false} Decoding(env: Env, ld: Loaded, v: Vm, gc: bool, op: Byte, a: Byte, b: Byte, c: Byte)
    requires Reads(ld, v, op, a, b, c)
    ensures VmStep(env, ld, v, gc) == VmSpec.Execute(env, ld, Decoded(op, a, b, c), v.(ip := v.ip + 4), gc)
  {
    hide VmSpec.Execute;
    PackInstrBytes(op, a, b, c);
    assert ld.bytes[v.ip..v.ip + 4] == [op, a, b, c];
    DecodePacked(ld.bytes, v.ip, Decoded(op, a, b, c));
  }

  // The machine goes on behind the instruction word with w in register r, and nothing else changed.
  ghost predicate Sets(o: Outcome<Vm>, v: Vm, r: Byte, w: Word) {
    o == Next(v.(ip := v.ip + 4, core := v.core.(reg := v.core.reg[r := w])))
  }

  // ---------- arithmetic: 0 to 3 ----------

  function ArithCode(op: ArithOp): Byte {
    match op
    case Add => 0
    case Sub => 1
    case Mul => 2
    case Div => 3
  }

  lemma {:induction false} ArithDispatch(env: Env, ld: Loaded, d: Decoded, op: ArithOp, v: Vm, gc: bool)
    requires d.opcode == ArithCode(op)
    ensures VmSpec.Execute(env, ld, d, v, gc) == Lift(v, CoreArith(env, op, d.ra, d.rb, d.rc, v.core))
  {
    hide CoreArith, Lift;
  }

  // Two doubles give what the operation gives for them in this order.
  lemma {:induction false} ArithDoubles(env: Env, ld: Loaded, v: Vm, gc: bool, op: ArithOp, a: Byte, b: Byte, c: Byte)
    requires Reads(ld, v, ArithCode(op), a, b, c) && IsDouble(v.core.reg[b]) && IsDouble(v.core.reg[c])
    ensures Sets(VmStep(env, ld, v, gc), v, a, env.fpu.arith(op, v.core.reg[b], v.core.reg[c]))
  {
    hide VmStep, VmSpec.Execute, IsDouble, IntOp;
    Decoding(env, ld, v, gc, ArithCode(op), a, b, c);
    ArithDispatch(env, ld, Decoded(ArithCode(op), a, b, c), op, v.(ip := v.ip + 4), gc);
  }

  // q is x divided by y, truncated: what remains is smaller than y and on x's side of zero.
  ghost predicate Quotient(x: int, y: int, q: int) {
    var r := x - y * q;
    y != 0 && (if y > 0 then -y < r < y else y < r < -y) && (r > 0 ==> x > 0) && (r < 0 ==> x < 0)
  }

  // Two ints give the boxed int that is congruent to the result modulo 2^48; a product, or the
  // quotient by zero, that has no 64-bit result is undefined.
  ghost predicate IntResult(op: ArithOp, x: int, y: int, o: Outcome<Vm>, v: Vm, a: Byte) {
    match op
    case Add => exists w: Word :: Sets(o, v, a, w) && IsInt(w) && DecodeInt(w) == Wrap48(x + y)
    case Sub => exists w: Word :: Sets(o, v, a, w) && IsInt(w) && DecodeInt(w) == Wrap48(x - y)
    case Mul =>
      if -0x8000_0000_0000_0000 <= x * y < 0x8000_0000_0000_0000 then
        exists w: Word :: Sets(o, v, a, w) && IsInt(w) && DecodeInt(w) == Wrap48(x * y)
      else o == Undefined
    case Div =>
      if y == 0 then o == Undefined
      else exists w: Word, q :: Sets(o, v, a, w) && IsInt(w) && Quotient(x, y, q) && DecodeInt(w) == Wrap48(q)
  }

  lemma {:induction false} ArithInts(env: Env, ld: Loaded, v: Vm, gc: bool, op: ArithOp, a: Byte, b: Byte, c: Byte)
    requires Reads(ld, v, ArithCode(op), a, b, c) && IsInt(v.core.reg[b]) && IsInt(v.core.reg[c])
    ensures IntResult(op, DecodeInt(v.core.reg[b]), DecodeInt(v.core.reg[c]), VmStep(env, ld, v, gc), v, a)
  {
    hide VmStep, VmSpec.Execute, IsDouble, IntOp, DecodeInt, IntResult;
    Decoding(env, ld, v, gc, ArithCode(op), a, b, c);
    ArithDispatch(env, ld, Decoded(ArithCode(op), a, b, c), op, v.(ip := v.ip + 4), gc);
    IntNoDouble(v.core.reg[b]);
    IntOpResult(op, v.core.reg[b], v.core.reg[c], VmStep(env, ld, v, gc), v, a);
  }

  lemma {:induction false} IntNoDouble(w: Word)
    requires IsInt(w)
    ensures !IsDouble(w)
  {
  }

  lemma {:induction false} IntOpResult(op: ArithOp, wx: Word, wy: Word, o: Outcome<Vm>, v: Vm, a: Byte)
    requires if IntOp(op, wx, wy).Some? then Sets(o, v, a, IntOp(op, wx, wy).value) else o == Undefined
    ensures IntResult(op, DecodeInt(wx), DecodeInt(wy), o, v, a)
  {
    var x, y := DecodeInt(wx), DecodeInt(wy);
    DecodedRange(wx);
    DecodedRange(wy);
    if op != ArithOp.Div || y != 0 {
      OpDefined(op, x, y);
    }
    hide DecodeInt, Sets, TruncDiv, Wrap48, IsInt;
    if IntOp(op, wx, wy).Some? {
      IntOpExact(op, wx, wy);
      var w := IntOp(op, wx, wy).value;
      assert Sets(o, v, a, w);
      if op == ArithOp.Div {
        TruncQuotient(x, y);
        assert Quotient(x, y, TruncDiv(x, y));
      }
    }
  }

  lemma {:induction false} DecodedRange(w: Word)
    ensures -TWO47 <= DecodeInt(w) < TWO47
  {
  }

  lemma {:induction false} OpDefined(op: ArithOp, x: int, y: int)
    requires -TWO47 <= x < TWO47 && -TWO47 <= y < TWO47 && (op == ArithOp.Div ==> y != 0)
    ensures op != ArithOp.Mul ==> InInt64(MathOp(op, x, y))
  {
    if op == ArithOp.Div {
      TruncQuotient(x, y);
    }
  }

  lemma {:induction false} TruncQuotient(x: int, y: int)
    requires y != 0
    ensures Quotient(x, y, TruncDiv(x, y))
    ensures -TWO47 <= x < TWO47 ==> InInt64(TruncDiv(x, y))
  {
    var m, n := Abs(x), Abs(y);
    var q: int := m / n;
    DivBounds(m, n, q);
    assert TruncDiv(x, y) == if (x >= 0) == (y > 0) then q else -q;
    hide TruncDiv;
    Signs(n, q);
  }

  lemma {:induction false} Signs(n: int, q: int)
    ensures (-n) * (-q) == n * q == q * n && n * (-q) == (-n) * q == -(n * q)
  {
  }

  // Anything else throws.
  lemma {:induction false} ArithThrown(env: Env, ld: Loaded, v: Vm, gc: bool, op: ArithOp, a: Byte, b: Byte, c: Byte)
    requires Reads(ld, v, ArithCode(op), a, b, c)
    requires !(IsDouble(v.core.reg[b]) && IsDouble(v.core.reg[c])) && !(IsInt(v.core.reg[b]) && IsInt(v.core.reg[c]))
    ensures VmStep(env, ld, v, gc) == Throw(BadOperands)
  {
    hide VmStep, VmSpec.Execute, IsDouble, IsInt, IntOp;
    Decoding(env, ld, v, gc, ArithCode(op), a, b, c);
    ArithDispatch(env, ld, Decoded(ArithCode(op), a, b, c), op, v.(ip := v.ip + 4), gc);
  }

  // ---------- end and debug return: 4 and 7 ----------

  // What is printed of a word: ints as numbers, doubles as they are, six characters as the low six
  // bytes, of anything else nothing.
  ghost predicate Prints(w: Word, before: seq<Printed>, after: seq<Printed>) {
    (IsInt(w) ==> after == before + [PrintInt(DecodeInt(w))]) &&
    (IsDouble(w) ==> after == before + [PrintDouble(w)]) &&
    (IsChar6(w) ==> after == before + [PrintChars(w % 0x1_0000_0000_0000)]) &&
    (!IsInt(w) && !IsDouble(w) && !IsChar6(w) ==> after == before)
  }

  lemma {:induction false} ShowPrints(w: Word, before: seq<Printed>)
    ensures Prints(w, before, before + Show(w))
  {
    assert before + [] == before;
  }

  lemma {:induction false} Printing(env: Env, ld: Loaded, d: Decoded, v: Vm, gc: bool)
    ensures d.opcode == 4 ==> VmSpec.Execute(env, ld, d, v, gc) == Lift(v, CoreEnd(d.ra, v.core))
    ensures d.opcode == 7 ==> VmSpec.Execute(env, ld, d, v, gc) == Lift(v, CorePrint(d.ra, v.core))
  {
    hide CoreEnd, CorePrint, Lift;
  }

  // dbgret prints its register and goes on.
  lemma {:induction false} DbgRetPrints(env: Env, ld: Loaded, v: Vm, gc: bool, a: Byte, b: Byte, c: Byte)
    requires Reads(ld, v, 7, a, b, c)
    ensures var r := VmStep(env, ld, v, gc);
            r.Next? && r.s == v.(ip := v.ip + 4, core := v.core.(out := r.s.core.out)) &&
            Prints(v.core.reg[a], v.core.out, r.s.core.out)
  {
    hide VmStep, VmSpec.Execute, Show, Prints;
    Decoding(env, ld, v, gc, 7, a, b, c);
    Printing(env, ld, Decoded(7, a, b, c), v.(ip := v.ip + 4), gc);
    ShowPrints(v.core.reg[a], v.core.out);
  }

  // end prints its register and halts with both heaps empty.
  lemma {:induction false} EndPrints(env: Env, ld: Loaded, v: Vm, gc: bool, a: Byte, b: Byte, c: Byte)
    requires Reads(ld, v, 4, a, b, c)
    ensures var r := VmStep(env, ld, v, gc);
            r.Halt? && r.s == v.(ip := v.ip + 4, core := v.core.(out := r.s.core.out, mem := NO_HEAP)) &&
            Prints(v.core.reg[a], v.core.out, r.s.core.out)
  {
    hide VmStep, VmSpec.Execute, Show, Prints;
    Decoding(env, ld, v, gc, 4, a, b, c);
    Printing(env, ld, Decoded(4, a, b, c), v.(ip := v.ip + 4), gc);
    ShowPrints(v.core.reg[a], v.core.out);
  }

  // A loaded text of up to six characters prints as these characters, padded with zeros.
  lemma {:induction false} CharsPrint(text: seq<Byte>, w: Word, before: seq<Printed>, after: seq<Printed>)
    requires EncodeLiteral(Chars(text)) == Some(w) && Prints(w, before, after)
    ensures |text| <= 6 && after == before + [PrintChars(w % 0x1_0000_0000_0000)]
    ensures var bs := BytesOf(w % 0x1_0000_0000_0000, 6);
            forall k :: 0 <= k < 6 ==> bs[k] == if k < |text| then text[k] else 0
  {
    CharsRoundTrip(text);
    hide BytesOf, LittleEndian, IsChar6;
  }

  // ---------- load, cmp and the jumps: 5, 6, 8 to 11 ----------

  lemma {:induction false} Fetched(ld: Loaded, at: nat, n: int)
    requires at + 4 <= |ld.bytes| && ld.bytes[at..at + 4] == PackU32(n)
    ensures Fetch(ld.bytes, at) == Some(n % TWO32)
  {
    ReadPacked(ld.bytes, at, n);
    hide ReadU32;
  }

  lemma {:induction false} Moving(env: Env, ld: Loaded, d: Decoded, v: Vm, gc: bool)
    ensures d.opcode == 5 ==> VmSpec.Execute(env, ld, d, v, gc) == VmLoad(ld, d.ra, v)
    ensures d.opcode == 6 ==> VmSpec.Execute(env, ld, d, v, gc) == Lift(v, CoreCompare(env, d.ra, d.rb, v.core))
    ensures d.opcode == 8 ==> VmSpec.Execute(env, ld, d, v, gc) == VmBranch(ld, Eq, v)
    ensures d.opcode == 9 ==> VmSpec.Execute(env, ld, d, v, gc) == VmBranch(ld, Ne, v)
    ensures d.opcode == 10 ==> VmSpec.Execute(env, ld, d, v, gc) == VmBranch(ld, Lt, v)
    ensures d.opcode == 11 ==> VmSpec.Execute(env, ld, d, v, gc) == VmBranch(ld, Gt, v)
  {
    hide CoreCompare, Lift, VmLoad, VmBranch;
  }

  // load puts the eight bytes behind it, high first, into its register and goes on behind them.
  lemma {:induction false} Loads(env: Env, ld: Loaded, v: Vm, gc: bool, a: Byte, b: Byte, c: Byte, w: Word)
    requires Reads(ld, v, 5, a, b, c) && v.ip + 12 <= |ld.bytes|
    requires ld.bytes[v.ip + 4..v.ip + 8] == PackU32(w / TWO32) && ld.bytes[v.ip + 8..v.ip + 12] == PackU32(w)
    ensures VmStep(env, ld, v, gc) == Next(v.(ip := v.ip + 12, core := v.core.(reg := v.core.reg[a := w])))
  {
    hide VmStep, VmSpec.Execute, Fetch, PackU32;
    Decoding(env, ld, v, gc, 5, a, b, c);
    Moving(env, ld, Decoded(5, a, b, c), v.(ip := v.ip + 4), gc);
    Fetched(ld, v.ip + 4, w / TWO32);
    Fetched(ld, v.ip + 8, w);
  }

  // What a comparison leaves in the flag, or whether it throws.
  ghost predicate Compares(env: Env, x: Word, y: Word, o: Outcome<Vm>, v: Vm) {
    if IsDouble(x) && IsDouble(y) then
      match env.fpu.compare(x, y)
      case Equal => Flags(o, v, 1)
      case Less => Flags(o, v, -1)
      case Greater => Flags(o, v, 2)
      case Unordered => Flags(o, v, 0)
    else if IsInt(x) && IsInt(y) then
      (DecodeInt(x) == DecodeInt(y) ==> Flags(o, v, 1)) && (DecodeInt(x) < DecodeInt(y) ==> Flags(o, v, -1)) &&
      (DecodeInt(x) > DecodeInt(y) ==> Flags(o, v, 2))
    else if IsBool(x) && IsBool(y) then Flags(o, v, if x % 2 == y % 2 then 1 else 0)
    else o == Throw(BadOperands)
  }

  ghost predicate Flags(o: Outcome<Vm>, v: Vm, flag: int) {
    o == Next(v.(ip := v.ip + 4, core := v.core.(flag := flag)))
  }

  lemma {:induction false} CmpFlags(env: Env, ld: Loaded, v: Vm, gc: bool, a: Byte, b: Byte, c: Byte)
    requires Reads(ld, v, 6, a, b, c)
    ensures Compares(env, v.core.reg[a], v.core.reg[b], VmStep(env, ld, v, gc), v)
  {
    hide VmStep, VmSpec.Execute, IsInt, IsDouble, IsBool, DecodeInt;
    Decoding(env, ld, v, gc, 6, a, b, c);
    Moving(env, ld, Decoded(6, a, b, c), v.(ip := v.ip + 4), gc);
  }

  // je on flag 1, jne on any other, jl on flag -1, jg on flag 2: to the address behind, or past it.
  lemma {:induction false} Jumps(env: Env, ld: Loaded, v: Vm, gc: bool, op: Byte, a: Byte, b: Byte, c: Byte, t: nat)
    requires 8 <= op <= 11 && Reads(ld, v, op, a, b, c) && v.ip + 8 <= |ld.bytes|
    requires ld.bytes[v.ip + 4..v.ip + 8] == PackU32(t) && t < TWO32
    ensures var f := v.core.flag;
            var taken := (op == 8 && f == 1) || (op == 9 && f != 1) || (op == 10 && f == -1) || (op == 11 && f == 2);
            VmStep(env, ld, v, gc) == Next(v.(ip := if taken then t else v.ip + 8))
  {
    hide VmStep, VmSpec.Execute, Fetch, PackU32;
    Decoding(env, ld, v, gc, op, a, b, c);
    Moving(env, ld, Decoded(op, a, b, c), v.(ip := v.ip + 4), gc);
    Fetched(ld, v.ip + 4, t);
  }

  // ---------- calls and the stack: 12 to 17 ----------

  lemma {:induction false} Stacking(env: Env, ld: Loaded, d: Decoded, v: Vm, gc: bool)
    ensures d.opcode == 12 ==>
              VmSpec.Execute(env, ld, d, v, gc) == VmCall(ld, d.ra * 0x1_0000 + d.rb * 0x100 + d.rc, v)
    ensures d.opcode == 13 ==> VmSpec.Execute(env, ld, d, v, gc) == VmRet(v)
    ensures d.opcode == 14 ==> VmSpec.Execute(env, ld, d, v, gc) == VmPush(v.core.reg[d.ra], v)
    ensures d.opcode == 15 ==> VmSpec.Execute(env, ld, d, v, gc) == VmPop(d.ra, v)
    ensures d.opcode == 16 ==> VmSpec.Execute(env, ld, d, v, gc) == VmInsert(Slot(d.ra, d.rb), d.rc, v)
    ensures d.opcode == 17 ==> VmSpec.Execute(env, ld, d, v, gc) == VmRead(Slot(d.ra, d.rb), d.rc, v)
    ensures d.opcode == 18 ==> VmSpec.Execute(env, ld, d, v, gc) == Lift(v, CoreMov(d.ra, d.rb, d.rc, v.core))
  {
    hide VmCall, VmRet, VmPush, VmPop, VmInsert, VmRead, CoreMov, Lift, Slot;
  }

  // call saves fp and the address behind it, opens a frame of the function's size, and jumps.
  lemma {:induction false} Calls(env: Env, ld: Loaded, v: Vm, gc: bool, a: Byte, b: Byte, c: Byte)
    requires Reads(ld, v, 12, a, b, c) && 65536 * a + 256 * b + c < 2048 && v.sp + 2 <= 4096
    requires v.fp < TWO64 && v.ip + 4 < TWO64
    ensures var f := ld.table[65536 * a + 256 * b + c];
            var r := VmStep(env, ld, v, gc);
            r.Next? && r.s.ip == f.entryIP && r.s.fp == v.sp + 2 && r.s.sp == v.sp + 2 + f.frameSize &&
            r.s.core == v.core && r.s.stack[v.sp] == v.fp && r.s.stack[v.sp + 1] == v.ip + 4 &&
            forall k :: 0 <= k < 4096 && k != v.sp && k != v.sp + 1 ==> r.s.stack[k] == v.stack[k]
  {
    hide VmStep, VmSpec.Execute;
    Decoding(env, ld, v, gc, 12, a, b, c);
    Stacking(env, ld, Decoded(12, a, b, c), v.(ip := v.ip + 4), gc);
  }

  // ret goes to what is saved right below fp, and takes fp from below that.
  lemma {:induction false} Returns(env: Env, ld: Loaded, v: Vm, gc: bool, a: Byte, b: Byte, c: Byte)
    requires Reads(ld, v, 13, a, b, c) && 2 <= v.fp <= 4096
    ensures VmStep(env, ld, v, gc) == Next(v.(ip := v.stack[v.fp - 1], fp := v.stack[v.fp - 2], sp := v.fp - 2))
  {
    hide VmStep, VmSpec.Execute;
    Decoding(env, ld, v, gc, 13, a, b, c);
    Stacking(env, ld, Decoded(13, a, b, c), v.(ip := v.ip + 4), gc);
  }

  lemma {:induction false} PushesAndPops(env: Env, ld: Loaded, v: Vm, gc: bool, a: Byte, b: Byte, c: Byte)
    ensures Reads(ld, v, 14, a, b, c) && v.sp < 4096 ==>
              VmStep(env, ld, v, gc) ==
                Next(v.(ip := v.ip + 4, stack := v.stack[v.sp := v.core.reg[a]], sp := v.sp + 1))
    ensures Reads(ld, v, 15, a, b, c) && 0 < v.sp <= 4096 ==>
              VmStep(env, ld, v, gc) ==
                Next(v.(ip := v.ip + 4, sp := v.sp - 1, core := v.core.(reg := v.core.reg[a := v.stack[v.sp - 1]])))
  {
    hide VmStep, VmSpec.Execute;
    if Reads(ld, v, 14, a, b, c) {
      Decoding(env, ld, v, gc, 14, a, b, c);
      Stacking(env, ld, Decoded(14, a, b, c), v.(ip := v.ip + 4), gc);
    } else if Reads(ld, v, 15, a, b, c) {
      Decoding(env, ld, v, gc, 15, a, b, c);
      Stacking(env, ld, Decoded(15, a, b, c), v.(ip := v.ip + 4), gc);
    }
  }

  // ins a, b, rc puts rc into slot 256 * a + b of the stack and changes no other; read takes it out.
  lemma {:induction false} InsertsAndReads(env: Env, ld: Loaded, v: Vm, gc: bool, a: Byte, b: Byte, c: Byte)
    requires 256 * a + b < 4096
    ensures Reads(ld, v, 16, a, b, c) ==>
              VmStep(env, ld, v, gc) == Next(v.(ip := v.ip + 4, stack := v.stack[256 * a + b := v.core.reg[c]]))
    ensures Reads(ld, v, 17, a, b, c) ==> Sets(VmStep(env, ld, v, gc), v, c, v.stack[256 * a + b])
  {
    hide VmStep, VmSpec.Execute;
    if Reads(ld, v, 16, a, b, c) {
      Decoding(env, ld, v, gc, 16, a, b, c);
      Stacking(env, ld, Decoded(16, a, b, c), v.(ip := v.ip + 4), gc);
    } else if Reads(ld, v, 17, a, b, c) {
      Decoding(env, ld, v, gc, 17, a, b, c);
      Stacking(env, ld, Decoded(17, a, b, c), v.(ip := v.ip + 4), gc);
    }
  }

  // ---------- mov: 18 ----------

  // Without a flag from 1 to 3, the second register is copied to the first.
  lemma {:induction false} Moves(env: Env, ld: Loaded, v: Vm, gc: bool, a: Byte, b: Byte, c: Byte)
    requires Reads(ld, v, 18, a, b, c) && !(1 <= c <= 3)
    ensures Sets(VmStep(env, ld, v, gc), v, a, v.core.reg[b])
  {
    hide VmStep, VmSpec.Execute;
    Decoding(env, ld, v, gc, 18, a, b, c);
    Stacking(env, ld, Decoded(18, a, b, c), v.(ip := v.ip + 4), gc);
  }

  // ---------- arrays: 19 to 21, and no instruction: from 22 on ----------

  // The length of arr is in its second register, the element type in its third; of arrins and
  // arrread the array is in the second, the index in the third.
  lemma {:induction false} Arrays(env: Env, ld: Loaded, v: Vm, gc: bool, a: Byte, b: Byte, c: Byte)
    ensures Reads(ld, v, 19, a, b, c) ==> VmStep(env, ld, v, gc) == VmArray(env, a, b, c, v.(ip := v.ip + 4), gc)
    ensures Reads(ld, v, 20, a, b, c) ==> VmStep(env, ld, v, gc) == Lift(v.(ip := v.ip + 4), CoreWrite(a, b, c, v.core))
    ensures Reads(ld, v, 21, a, b, c) ==> VmStep(env, ld, v, gc) == Lift(v.(ip := v.ip + 4), CoreRead(a, b, c, v.core))
  {
    hide VmStep, VmSpec.Execute, VmArray, CoreWrite, CoreRead, Lift;
    forall op: Byte | 19 <= op <= 21 && Reads(ld, v, op, a, b, c)
      ensures op == 19 ==> VmStep(env, ld, v, gc) == VmArray(env, a, b, c, v.(ip := v.ip + 4), gc)
      ensures op == 20 ==> VmStep(env, ld, v, gc) == Lift(v.(ip := v.ip + 4), CoreWrite(a, b, c, v.core))
      ensures op == 21 ==> VmStep(env, ld, v, gc) == Lift(v.(ip := v.ip + 4), CoreRead(a, b, c, v.core))
    {
      Decoding(env, ld, v, gc, op, a, b, c);
      Accessing(env, ld, Decoded(op, a, b, c), v.(ip := v.ip + 4), gc);
    }
  }

  // Without a collection, arr leaves a pointer to an array whose length was in the second register
  // and whose element type was in the third.
  lemma {:induction false} MakesArray(env: Env, ld: Loaded, v: Vm, a: Byte, b: Byte, c: Byte)
    requires Reads(ld, v, 19, a, b, c) && HeapOk(v.core.mem) && VmStep(env, ld, v, false).Next?
    ensures var r := VmStep(env, ld, v, false).s;
            var m, h := r.core.mem, HeaderOf(r.core.reg[a]);
            r == v.(ip := v.ip + 4, core := v.core.(reg := v.core.reg[a := r.core.reg[a]], mem := m)) &&
            IsPointer(r.core.reg[a]) && h !in v.core.mem.active.mem && h in m.active.mem &&
            (DecodeInt(v.core.reg[b]) >= 2 || InChunk(m, h, FIELDS) ==>
              exists w: Word :: ReadWord(m, h, FIELDS) == Some(w) &&
                w / 0x1_0000_0000 == DecodeInt(v.core.reg[b]) &&
                w % 0x1_0000_0000 == DecodeInt(v.core.reg[c]) % 0x1_0000_0000)
  {
    hide VmStep, VmSpec.Execute, HeapOk, HeaderOf, DecodeInt, ReadWord, InChunk, CoreNewArray;
    Arrays(env, ld, v, false, a, b, c);
    NewArrayIsNew(env, a, DecodeInt(v.core.reg[b]), c, v.core);
    NewArrayFields(env, a, DecodeInt(v.core.reg[b]), c, v.core);
    NewArraySets(env, a, DecodeInt(v.core.reg[b]), c, v.core);
  }

  // It does so for every length whose array fits into a chunk, unless memory runs out; a negative
  // length, or a longer array, is undefined.
  lemma {:induction false} ArrayLengths(env: Env, ld: Loaded, v: Vm, a: Byte, b: Byte, c: Byte)
    requires Reads(ld, v, 19, a, b, c)
    ensures var n, r := DecodeInt(v.core.reg[b]), VmStep(env, ld, v, false);
            if 0 <= n <= 524285 then r.Next? || r == Throw(BadAlloc) else r == Undefined
    ensures env.malloc(Bases(v.core.mem.idle) + Bases(v.core.mem.active)).Some? ==>
              VmStep(env, ld, v, false) != Throw(BadAlloc)
  {
    hide VmStep, VmSpec.Execute, DecodeInt, CoreNewArray;
    Arrays(env, ld, v, false, a, b, c);
    LengthFits(env, a, DecodeInt(v.core.reg[b]), c, v.core);
  }

  lemma {:induction false} LengthFits(env: Env, rd: Byte, length: int, rty: Byte, c: Core)
    ensures var r := CoreNewArray(env, rd, length, rty, c);
            if 0 <= length <= 524285 then r.Next? || r == Throw(BadAlloc) else r == Undefined
    ensures env.malloc(Bases(c.mem.idle) + Bases(c.mem.active)).Some? ==>
              CoreNewArray(env, rd, length, rty, c) != Throw(BadAlloc)
  {
    if length >= 0 {
      ArraySizeExact(length);
    }
    hide DecodeInt, ArraySize, PointerTo, NewWords, Put;
  }

  // With a collection, registers and the stack below sp are its roots, both are forwarded, and the
  // array is made in the heap that is left; the length was read before.
  lemma {:induction false} CollectsFirst(env: Env, ld: Loaded, v: Vm, a: Byte, b: Byte, c: Byte, m: Mem,
                                         fwd: map<nat, nat>)
    requires Reads(ld, v, 19, a, b, c) && v.sp <= 4096
    requires Gc(env, v.core.mem, v.core.reg + v.stack[..v.sp]) == Next((m, fwd))
    ensures var core := v.core.(reg := PatchAll(fwd, v.core.reg), mem := m);
            var u := v.(ip := v.ip + 4, core := core, stack := PatchAll(fwd, v.stack[..v.sp]) + v.stack[v.sp..]);
            VmStep(env, ld, v, true) == Lift(u, CoreNewArray(env, a, DecodeInt(v.core.reg[b]), c, core))
  {
    hide VmStep, VmSpec.Execute, DecodeInt, CoreNewArray, Lift, Gc, PatchAll;
    Arrays(env, ld, v, true, a, b, c);
  }

  lemma {:induction false} NewArraySets(env: Env, rd: Byte, length: int, rty: Byte, c: Core)
    requires CoreNewArray(env, rd, length, rty, c).Next?
    ensures var d := CoreNewArray(env, rd, length, rty, c).s;
            d == c.(reg := c.reg[rd := d.reg[rd]], mem := d.mem)
  {
    hide NewArray, DecodeInt, ArraySize, PointerTo;
  }

  lemma {:induction false} Accessing(env: Env, ld: Loaded, d: Decoded, v: Vm, gc: bool)
    ensures d.opcode == 19 ==> VmSpec.Execute(env, ld, d, v, gc) == VmArray(env, d.ra, d.rb, d.rc, v, gc)
    ensures d.opcode == 20 ==> VmSpec.Execute(env, ld, d, v, gc) == Lift(v, CoreWrite(d.ra, d.rb, d.rc, v.core))
    ensures d.opcode == 21 ==> VmSpec.Execute(env, ld, d, v, gc) == Lift(v, CoreRead(d.ra, d.rb, d.rc, v.core))
    ensures d.opcode > 21 ==> VmSpec.Execute(env, ld, d, v, gc) == Throw(BadOpcode)
  {
    hide VmArray, CoreWrite, CoreRead, Lift;
  }

  // Exactly the numbers up to 21 are instructions.
  lemma {:induction false} NoSuchOpcode(env: Env, ld: Loaded, v: Vm, gc: bool, op: Byte, a: Byte, b: Byte, c: Byte)
    requires Reads(ld, v, op, a, b, c)
    ensures VmStep(env, ld, v, gc) == Throw(BadOpcode) <==> op > 21
  {
    hide VmStep, VmSpec.Execute;
    Decoding(env, ld, v, gc, op, a, b, c);
    Accessing(env, ld, Decoded(op, a, b, c), v.(ip := v.ip + 4), gc);
    if op <= 21 {
      Known(env, ld, Decoded(op, a, b, c), v.(ip := v.ip + 4), gc);
    }
  }

  lemma {:induction false} Known(env: Env, ld: Loaded, d: Decoded, v: Vm, gc: bool)
    requires d.opcode <= 21
    ensures VmSpec.Execute(env, ld, d, v, gc) != Throw(BadOpcode)
  {
    hide NewArray, Collect, Marked, ReadWord, StoreWord, IntOp, IsDouble, IsInt, IsBool;
  }

  // ---------- the same on the reference machine ----------

  predicate Runs(c: Code, s: Ref, i: Instr<nat>) {
    s.pc < |c.instrs| && c.instrs[s.pc] == i
  }

  // It goes on to the next instruction with w in register r, and nothing else changed.
  ghost predicate RefSets(o: Outcome<Ref>, s: Ref, r: Byte, w: Word) {
    o == Next(s.(pc := s.pc + 1, core := s.core.(reg := s.core.reg[r := w])))
  }

  lemma {:induction false} RefArith(env: Env, c: Code, s: Ref, gc: bool, op: ArithOp, ra: Byte, rb: Byte, rc: Byte)
    requires Runs(c, s, Op(ArithMnemonic(op), ra, rb, rc))
    ensures RefStep(env, c, s, gc) == LiftRef(s.(pc := s.pc + 1), CoreArith(env, op, ra, rb, rc, s.core))
  {
    hide CoreArith, LiftRef;
  }

  function ArithMnemonic(op: ArithOp): Mnemonic {
    match op
    case Add => Mnemonic.Add
    case Sub => Mnemonic.Sub
    case Mul => Mnemonic.Mul
    case Div => Mnemonic.Div
  }

  lemma {:induction false} RefArithDoubles(env: Env, c: Code, s: Ref, gc: bool, op: ArithOp, ra: Byte, rb: Byte,
                                           rc: Byte)
    requires Runs(c, s, Op(ArithMnemonic(op), ra, rb, rc)) && IsDouble(s.core.reg[rb]) && IsDouble(s.core.reg[rc])
    ensures RefSets(RefStep(env, c, s, gc), s, ra, env.fpu.arith(op, s.core.reg[rb], s.core.reg[rc]))
  {
    hide RefStep, IsDouble, IntOp;
    RefArith(env, c, s, gc, op, ra, rb, rc);
  }

  lemma {:induction false} RefMoves(env: Env, c: Code, s: Ref, gc: bool, ra: Byte, rb: Byte, rc: Byte)
    requires Runs(c, s, Op(Mov, ra, rb, rc)) && !(1 <= rc <= 3)
    ensures RefSets(RefStep(env, c, s, gc), s, ra, s.core.reg[rb])
  {
  }

  // A slot that belongs to a frame's saved words is not for the program to write; one that does
  // not hold a value is not for it to read.
  lemma {:induction false} RefInsertsAndReads(env: Env, c: Code, s: Ref, gc: bool, ra: Byte, rb: Byte, rc: Byte)
    requires 256 * ra + rb < 4096
    ensures Runs(c, s, Op(Ins, ra, rb, rc)) && !Guarded(s.frames, 256 * ra + rb) ==>
              RefStep(env, c, s, gc) ==
                Next(s.(pc := s.pc + 1, stack := s.stack[256 * ra + rb := Val(s.core.reg[rc])]))
    ensures Runs(c, s, Op(Read, ra, rb, rc)) && s.stack[256 * ra + rb].Val? ==>
              RefSets(RefStep(env, c, s, gc), s, rc, s.stack[256 * ra + rb].w)
  {
    hide Guarded;
  }

  lemma {:induction false} RefLoads(env: Env, c: Code, s: Ref, gc: bool, ra: Byte, w: Word)
    requires Runs(c, s, Load(ra, w))
    ensures RefSets(RefStep(env, c, s, gc), s, ra, w)
  {
  }

  lemma {:induction false} RefJumps(env: Env, c: Code, s: Ref, gc: bool, cond: Cond, t: nat)
    requires Runs(c, s, Branch(cond, t))
    ensures var f := s.core.flag;
            var taken := match cond case Eq => f == 1 case Ne => f != 1 case Lt => f == -1 case Gt => f == 2;
            RefStep(env, c, s, gc) == Next(s.(pc := if taken then t else s.pc + 1))
  {
  }

  // A call opens a frame of the function's size over two cells no program reads, and keeps where to
  // return to.
  lemma {:induction false} RefCalls(env: Env, c: Code, s: Ref, gc: bool, index: Index24)
    requires Runs(c, s, Call(index)) && index < |c.entries| && s.sp + 2 <= 4096
    ensures var f := c.entries[index];
            RefStep(env, c, s, gc) ==
              Next(s.(pc := f.start, frames := s.frames + [Frame(s.pc + 1, s.fp, s.sp)],
                      stack := s.stack[s.sp := Saved][s.sp + 1 := Saved],
                      sp := s.sp + 2 + f.frameSize % 65536, fp := s.sp + 2))
  {
  }

  lemma {:induction false} RefReturns(env: Env, c: Code, s: Ref, gc: bool, ra: Byte, rb: Byte, rc: Byte, f: Frame)
    requires Runs(c, s, Op(Ret, ra, rb, rc)) && s.frames != [] && f == s.frames[|s.frames| - 1]
    ensures RefStep(env, c, s, gc) ==
              Next(s.(pc := f.ret, fp := f.fp, sp := f.sp, frames := s.frames[..|s.frames| - 1]))
  {
  }

  // Popping stays in the frame.
  lemma {:induction false} RefPushesAndPops(env: Env, c: Code, s: Ref, gc: bool, ra: Byte, rb: Byte, rc: Byte)
    ensures Runs(c, s, Op(Push, ra, rb, rc)) && s.sp < 4096 ==>
              RefStep(env, c, s, gc) ==
                Next(s.(pc := s.pc + 1, stack := s.stack[s.sp := Val(s.core.reg[ra])], sp := s.sp + 1))
    ensures Runs(c, s, Op(Pop, ra, rb, rc)) && s.fp < s.sp <= 4096 && s.stack[s.sp - 1].Val? ==>
              RefSets(RefStep(env, c, s, gc), s.(sp := s.sp - 1), ra, s.stack[s.sp - 1].w)
  {
  }

  // Comparing and printing
  lemma {:induction false} RefCompares(env: Env, c: Code, s: Ref, gc: bool, ra: Byte, rb: Byte, rc: Byte)
    requires Runs(c, s, Op(Cmp, ra, rb, rc))
    ensures RefStep(env, c, s, gc) == LiftRef(s.(pc := s.pc + 1), CoreCompare(env, ra, rb, s.core))
  {
    hide CoreCompare, LiftRef;
  }

  lemma {:induction false} RefPrints(env: Env, c: Code, s: Ref, gc: bool, ra: Byte, rb: Byte, rc: Byte)
    ensures Runs(c, s, Op(DbgRet, ra, rb, rc)) ==>
              var r := RefStep(env, c, s, gc);
              r.Next? && r.s == s.(pc := s.pc + 1, core := s.core.(out := r.s.core.out)) &&
              Prints(s.core.reg[ra], s.core.out, r.s.core.out)
    ensures Runs(c, s, Op(End, ra, rb, rc)) ==>
              var r := RefStep(env, c, s, gc);
              r.Halt? && r.s == s.(pc := s.pc + 1, core := s.core.(out := r.s.core.out, mem := NO_HEAP)) &&
              Prints(s.core.reg[ra], s.core.out, r.s.core.out)
  {
    hide Show, Prints;
    ShowPrints(s.core.reg[ra], s.core.out);
  }

  lemma {:induction false} RefArrays(env: Env, c: Code, s: Ref, gc: bool, ra: Byte, rb: Byte, rc: Byte)
    ensures Runs(c, s, Op(ArrIns, ra, rb, rc)) ==>
              RefStep(env, c, s, gc) == LiftRef(s.(pc := s.pc + 1), CoreWrite(ra, rb, rc, s.core))
    ensures Runs(c, s, Op(ArrRead, ra, rb, rc)) ==>
              RefStep(env, c, s, gc) == LiftRef(s.(pc := s.pc + 1), CoreRead(ra, rb, rc, s.core))
    ensures Runs(c, s, Op(Arr, ra, rb, rc)) && !gc ==>
              RefStep(env, c, s, gc) ==
                LiftRef(s.(pc := s.pc + 1), CoreNewArray(env, ra, DecodeInt(s.core.reg[rb]), rc, s.core))
  {
    hide CoreWrite, CoreRead, CoreNewArray, LiftRef, DecodeInt;
  }
}
