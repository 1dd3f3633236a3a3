// What the instructions mean, one with another: results, and what reads back what was written.
module Instructions {
  import opened Words
  import opened Wrappers
  import opened Bytes
  import opened Isa
  import opened Space
  import opened Collector
  import opened HeapOps
  import opened Machine
  import opened VmSpec

  // Only register rd may differ.
  ghost predicate OnlyReg(c: Core, d: Core, rd: Byte) {
    d.flag == c.flag && d.out == c.out && d.mem == c.mem && forall k: Byte :: k != rd ==> d.reg[k] == c.reg[k]
  }

  // On two ints, wherever the operation is defined: the destination holds the wrapped result.
  lemma {:induction false} ArithMeaning(env: Env, op: ArithOp, rd: Byte, ra: Byte, rb: Byte, c: Core)
    requires IsInt(c.reg[ra]) && IsInt(c.reg[rb]) && (op == ArithOp.Div ==> DecodeInt(c.reg[rb]) != 0)
    requires InInt64(MathOp(op, DecodeInt(c.reg[ra]), DecodeInt(c.reg[rb])))
    ensures var r := CoreArith(env, op, rd, ra, rb, c);
            r.Next? && OnlyReg(c, r.s, rd) && IsInt(r.s.reg[rd]) &&
            DecodeInt(r.s.reg[rd]) == Wrap48(MathOp(op, DecodeInt(c.reg[ra]), DecodeInt(c.reg[rb])))
  {
    IntOpExact(op, c.reg[ra], c.reg[rb]);
    hide DecodeInt, MathOp, IntOp, IsDouble;
  }

  // On two doubles: the destination holds what the operation gives for them in this order.
  lemma {:induction false} ArithOnDoubles(env: Env, op: ArithOp, rd: Byte, ra: Byte, rb: Byte, c: Core)
    requires IsDouble(c.reg[ra]) && IsDouble(c.reg[rb])
    ensures var r := CoreArith(env, op, rd, ra, rb, c);
            r.Next? && r.s.reg[rd] == env.fpu.arith(op, c.reg[ra], c.reg[rb]) && OnlyReg(c, r.s, rd)
  {
    hide IsDouble, IntOp;
  }

  // The destination holds the source register, and the source register is as it was.
  lemma {:induction false} MovCopies(rd: Byte, rs: Byte, flag: Byte, c: Core)
    requires !(1 <= flag <= 3)
    ensures var r := CoreMov(rd, rs, flag, c);
            r.Next? && r.s.reg[rd] == c.reg[rs] && r.s.reg[rs] == c.reg[rs] && OnlyReg(c, r.s, rd)
  {
  }

  // Operands of different classes, or neither ints nor doubles, throw.
  lemma {:induction false} ArithThrows(env: Env, op: ArithOp, rd: Byte, ra: Byte, rb: Byte, c: Core)
    ensures CoreArith(env, op, rd, ra, rb, c) == Throw(BadOperands) <==>
              !(IsDouble(c.reg[ra]) && IsDouble(c.reg[rb])) && !(IsInt(c.reg[ra]) && IsInt(c.reg[rb]))
  {
    hide IsDouble, IsInt, IntOp;
  }

  // Comparing throws exactly for operands that are not both doubles, both ints or both bools.
  lemma {:induction false} CompareThrows(env: Env, ra: Byte, rb: Byte, c: Core)
    ensures CoreCompare(env, ra, rb, c) == Throw(BadOperands) <==>
              !(IsDouble(c.reg[ra]) && IsDouble(c.reg[rb])) && !(IsInt(c.reg[ra]) && IsInt(c.reg[rb])) &&
              !(IsBool(c.reg[ra]) && IsBool(c.reg[rb]))
    ensures CoreCompare(env, ra, rb, c) != Throw(BadOperands) ==> CoreCompare(env, ra, rb, c).Next?
  {
    hide IsDouble, IsInt, IsBool, DecodeInt, DecodeBool;
  }

  // After a comparison of ints each conditional jump is taken exactly when its relation holds.
  lemma {:induction false} CompareThenJump(env: Env, ra: Byte, rb: Byte, c: Core)
    requires IsInt(c.reg[ra]) && IsInt(c.reg[rb])
    ensures var r := CoreCompare(env, ra, rb, c);
            var x, y := DecodeInt(c.reg[ra]), DecodeInt(c.reg[rb]);
            r.Next? && (Taken(Eq, r.s.flag) <==> x == y) && (Taken(Ne, r.s.flag) <==> x != y) &&
            (Taken(Lt, r.s.flag) <==> x < y) && (Taken(Gt, r.s.flag) <==> x > y)
  {
    hide DecodeInt;
  }

  // Of bools only equality is decided; an unordered pair of doubles satisfies only `jne`.
  lemma {:induction false} CompareOthers(env: Env, ra: Byte, rb: Byte, c: Core)
    ensures IsBool(c.reg[ra]) && IsBool(c.reg[rb]) ==>
              var r := CoreCompare(env, ra, rb, c);
              r.Next? && !Taken(Lt, r.s.flag) && !Taken(Gt, r.s.flag) &&
              (Taken(Eq, r.s.flag) <==> DecodeBool(c.reg[ra]) == DecodeBool(c.reg[rb]))
    ensures IsDouble(c.reg[ra]) && IsDouble(c.reg[rb]) ==>
              var r, o := CoreCompare(env, ra, rb, c), env.fpu.compare(c.reg[ra], c.reg[rb]);
              r.Next? && (Taken(Eq, r.s.flag) <==> o == Equal) && (Taken(Lt, r.s.flag) <==> o == Less) &&
              (Taken(Gt, r.s.flag) <==> o == Greater) && (Taken(Ne, r.s.flag) <==> o != Equal)
  {
  }

  // ---------- stack ----------

  // What is pushed is popped, and the stack pointer is back.
  lemma {:induction false} PushThenPop(ra: Byte, rd: Byte, s: Vm)
    requires VmPush(s.core.reg[ra], s).Next?
    ensures var r := VmPop(rd, VmPush(s.core.reg[ra], s).s);
            r.Next? && r.s.sp == s.sp && r.s.core.reg[rd] == s.core.reg[ra] && OnlyReg(s.core, r.s.core, rd)
  {
  }

  // A slot reads as what was inserted there; inserting elsewhere does not matter.
  lemma {:induction false} InsertThenRead(slot: nat, other: nat, rs: Byte, rd: Byte, s: Vm)
    requires VmInsert(slot, rs, s).Next? && other < STACK_SIZE
    ensures var r := VmRead(other, rd, VmInsert(slot, rs, s).s);
            r.Next? && r.s.core.reg[rd] == if other == slot then s.core.reg[rs] else s.stack[other]
  {
  }

  // A function that does nothing returns to the caller's ip, fp and sp.
  lemma {:induction false} CallThenReturn(ld: Loaded, idx: nat, s: Vm)
    requires VmCall(ld, idx, s).Next?
    ensures var r := VmRet(VmCall(ld, idx, s).s);
            r.Next? && r.s.ip == s.ip && r.s.fp == s.fp && r.s.sp == s.sp && r.s.core == s.core &&
            r.s.stack[..s.sp] == s.stack[..s.sp]
  {
    var t := VmCall(ld, idx, s).s;
    assert t.stack[s.sp] == s.fp && t.stack[s.sp + 1] == s.ip;
    assert t.stack[..s.sp] == s.stack[..s.sp];
  }

  // ---------- arrays ----------

  // An access throws exactly when the index is past the length its object's fields word holds.
  lemma {:induction false} AccessThrows(m: Mem, arr: Word, idx: Word, fields: Word)
    requires HeaderOf(arr) in m.active.mem && m.active.mem[HeaderOf(arr)].kind == ObjArray
    requires ReadWord(m, HeaderOf(arr), FIELDS) == Some(fields)
    ensures Locate(m, arr, idx) == Throw(ArrayOutOfBounds) <==> DecodeInt(idx) > fields / 0x1_0000_0000
  {
    hide HeaderOf, DecodeInt, ReadWord;
  }

  // Reading where something was written gives it; everywhere else reading does what it did.
  lemma {:induction false} WriteThenRead(rs: Byte, rarr: Byte, ridx: Byte, rd: Byte, rarr': Byte, ridx': Byte, c: Core)
    requires HeapOk(c.mem) && CoreWrite(rs, rarr, ridx, c).Next?
    ensures var d := CoreWrite(rs, rarr, ridx, c).s;
            var r, b := CoreRead(rd, rarr', ridx', d), CoreRead(rd, rarr', ridx', c);
            if HeaderOf(c.reg[rarr]) == HeaderOf(c.reg[rarr']) && DecodeInt(c.reg[ridx]) == DecodeInt(c.reg[ridx'])
            then r.Next? && r.s.reg[rd] == c.reg[rs]
            else r.Next? == b.Next? && (if r.Next? then r.s.reg[rd] == b.s.reg[rd] else r == b)
  {
    var d := CoreWrite(rs, rarr, ridx, c).s;
    var (a, j) := Locate(c.mem, c.reg[rarr], c.reg[ridx]).s;
    LocatedObject(c.mem, c.reg[rarr], c.reg[ridx]);
    LocateSame(c.mem, a, j, c.reg[rs], c.reg[rarr'], c.reg[ridx']);
    hide HeapOk, HeaderOf, DecodeInt, Reachable, ReadWord, StoreWord;
    var l := Locate(c.mem, c.reg[rarr'], c.reg[ridx']);
    if l.Next? {
      LocatedObject(c.mem, c.reg[rarr'], c.reg[ridx']);
      StoreRead(c.mem, a, j, c.reg[rs], l.s.0, l.s.1);
    }
  }

  // A store behind the fields leaves what an access goes to as it was.
  lemma {:induction false} LocateSame(m: Mem, a: nat, j: nat, w: Word, arr: Word, idx: Word)
    requires HeapOk(m) && a in m.active.mem && Reachable(m, a, j) && j >= FIRST_ELEM
    ensures Locate(StoreWord(m, a, j, w), arr, idx) == Locate(m, arr, idx)
  {
    hide HeapOk, HeaderOf, DecodeInt, Reachable, ReadWord;
    if HeaderOf(arr) in m.active.mem {
      StoreRead(m, a, j, w, HeaderOf(arr), FIELDS);
    }
  }

  // A new array is a pointer to an object no word named before, and no other object changes.
  lemma {:induction false} NewArrayIsNew(env: Env, rd: Byte, length: int, rty: Byte, c: Core)
    requires HeapOk(c.mem) && CoreNewArray(env, rd, length, rty, c).Next?
    ensures var d := CoreNewArray(env, rd, length, rty, c).s;
            IsPointer(d.reg[rd]) && HeaderOf(d.reg[rd]) in d.mem.active.mem &&
            HeaderOf(d.reg[rd]) !in c.mem.active.mem && OnlyReg(c.(mem := d.mem), d, rd) &&
            forall a :: a in c.mem.active.mem ==> a in d.mem.active.mem && d.mem.active.mem[a] == c.mem.active.mem[a]
  {
    var n := DecodeInt(c.reg[rty]) % TWO32;
    hide HeapOk, NewArray, HeaderOf, IsPointer, PointerTo, DecodeInt, ArraySize, NewObj, NewWords, Spill;
    NewArrayKeeps(env.malloc, env.stale, c.mem, length, n);
    PointerRoundTrip(NewArray(env.malloc, env.stale, c.mem, length, n).value.1);
  }

  // Its fields word, where it lies in the chunk, holds the length above and the element type below.
  lemma {:induction false} NewArrayFields(env: Env, rd: Byte, length: int, rty: Byte, c: Core)
    requires HeapOk(c.mem) && CoreNewArray(env, rd, length, rty, c).Next?
    ensures var d := CoreNewArray(env, rd, length, rty, c).s;
            var m, a := d.mem, HeaderOf(d.reg[rd]);
            a in m.active.mem && (length >= 2 || InChunk(m, a, FIELDS) ==>
              exists w: Word :: ReadWord(m, a, FIELDS) == Some(w) && w / 0x1_0000_0000 == length &&
                                w % 0x1_0000_0000 == DecodeInt(c.reg[rty]) % 0x1_0000_0000)
  {
    hide HeapOk, NewArray, HeaderOf, DecodeInt, ArraySize, ReadWord, InChunk, CoreNewArray, FieldsWord;
    NewArrayShape(env, rd, length, rty, c);
    var d, n := CoreNewArray(env, rd, length, rty, c).s, DecodeInt(c.reg[rty]) % TWO32;
    var a := HeaderOf(d.reg[rd]);
    NewArrayHolds(env.malloc, env.stale, c.mem, length, n, d.mem, a, 0);
    FieldsBack(n, length);
    if length >= 2 || InChunk(d.mem, a, FIELDS) {
      var w := FieldsWord(n, length);
      assert ReadWord(d.mem, a, FIELDS) == Some(w);
    }
  }

  // Its elements inside the object read zero, and so do, while the chunk lasts, those behind it;
  // reading past the length throws, if the word for the length lies in the chunk.
  lemma {:induction false} NewArrayReads(env: Env, rd: Byte, length: int, rty: Byte, c: Core, a: nat, rarr: Byte,
                                         ridx: Byte, rt: Byte)
    requires HeapOk(c.mem) && CoreNewArray(env, rd, length, rty, c).Next?
    requires var d := CoreNewArray(env, rd, length, rty, c).s; HeaderOf(d.reg[rd]) == a && HeaderOf(d.reg[rarr]) == a
    ensures var d := CoreNewArray(env, rd, length, rty, c).s;
            var r, i := CoreRead(rt, rarr, ridx, d), DecodeInt(d.reg[ridx]);
            (0 <= i < length && (i + 2 < length || InChunk(d.mem, a, FIRST_ELEM + i)) ==> Gives(r, rt, 0)) &&
            (i > length && (length >= 2 || InChunk(d.mem, a, FIELDS)) ==> r == Throw(ArrayOutOfBounds))
  {
    hide HeapOk, NewArray, HeaderOf, DecodeInt, ArraySize, Locate, ReadWord, InChunk, CoreRead, CoreNewArray, Gives;
    NewArrayShape(env, rd, length, rty, c);
    var d := CoreNewArray(env, rd, length, rty, c).s;
    NewLocated(env.malloc, env.stale, c.mem, length, DecodeInt(c.reg[rty]) % TWO32, d.mem, a, d.reg[rarr], d.reg[ridx]);
    ReadIs(rt, rarr, ridx, d, a, 0);
  }

  lemma {:induction false} NewArrayShape(env: Env, rd: Byte, length: int, rty: Byte, c: Core)
    requires HeapOk(c.mem) && CoreNewArray(env, rd, length, rty, c).Next?
    ensures length >= 0 && ArraySize(length) <= CHUNK_SIZE
    ensures var d := CoreNewArray(env, rd, length, rty, c).s;
            HeaderOf(d.reg[rd]) in d.mem.active.mem &&
            NewArray(env.malloc, env.stale, c.mem, length, DecodeInt(c.reg[rty]) % TWO32) ==
              Some((d.mem, HeaderOf(d.reg[rd])))
  {
    var n := DecodeInt(c.reg[rty]) % TWO32;
    hide HeapOk, NewArray, HeaderOf, PointerTo, DecodeInt, ArraySize, NewObj, NewWords, Spill;
    NewArrayKeeps(env.malloc, env.stale, c.mem, length, n);
    PointerRoundTrip(NewArray(env.malloc, env.stale, c.mem, length, n).value.1);
  }

  // The read succeeds and leaves w in register rt.
  ghost predicate Gives(r: Outcome<Core>, rt: Byte, w: Word) {
    r.Next? && r.s.reg[rt] == w
  }

  lemma {:induction false} ReadIs(rd: Byte, rarr: Byte, ridx: Byte, c: Core, a: nat, w: Word)
    requires a in c.mem.active.mem
    ensures var l, r := Locate(c.mem, c.reg[rarr], c.reg[ridx]), CoreRead(rd, rarr, ridx, c);
            (l.Next? && l.s.0 == a && ReadWord(c.mem, a, l.s.1) == Some(w) ==> Gives(r, rd, w)) &&
            (l == Throw(ArrayOutOfBounds) ==> r == Throw(ArrayOutOfBounds))
  {
    hide Locate, ReadWord;
  }

  lemma {:induction false} LocateKnown(m: Mem, arr: Word, idx: Word, fields: Word)
    requires HeaderOf(arr) in m.active.mem && m.active.mem[HeaderOf(arr)].kind == ObjArray
    requires ReadWord(m, HeaderOf(arr), FIELDS) == Some(fields)
    ensures Locate(m, arr, idx) ==
            if fields / TWO32 < DecodeInt(idx) then Throw(ArrayOutOfBounds)
            else if DecodeInt(idx) < 0 then Undefined
            else Next((HeaderOf(arr), FIRST_ELEM + DecodeInt(idx)))
  {
    hide HeaderOf, DecodeInt, ReadWord;
  }

  lemma {:induction false} NewLocated(malloc: Malloc, stale: Stale, m0: Mem, length: nat, elemType: nat, m: Mem, a: nat,
                                      arr: Word, idx: Word)
    requires HeapOk(m0) && ArraySize(length) <= CHUNK_SIZE && HeaderOf(arr) == a
    requires NewArray(malloc, stale, m0, length, elemType) == Some((m, a))
    ensures ReadsAsNew(m, a, length, arr, idx)
  {
    hide HeapOk, NewArray, HeaderOf, DecodeInt, ArraySize, ReadWord, Locate, InChunk, ReadsAsNew, FieldsWord;
    var i := DecodeInt(idx);
    NewArrayHolds(malloc, stale, m0, length, elemType, m, a, if i < 0 then 0 else i);
    LocatedAsNew(m, a, length, arr, idx, FieldsWord(elemType, length));
  }

  // What an access to a new array of this length finds.
  ghost predicate ReadsAsNew(m: Mem, a: nat, length: nat, arr: Word, idx: Word) {
    var i := DecodeInt(idx);
    a in m.active.mem &&
    (0 <= i < length && (i + 2 < length || InChunk(m, a, FIRST_ELEM + i)) ==>
       Locate(m, arr, idx) == Next((a, FIRST_ELEM + i)) && ReadWord(m, a, FIRST_ELEM + i) == Some(0)) &&
    (i > length && (length >= 2 || InChunk(m, a, FIELDS)) ==> Locate(m, arr, idx) == Throw(ArrayOutOfBounds))
  }

  lemma {:induction false} LocatedAsNew(m: Mem, a: nat, length: nat, arr: Word, idx: Word, fields: Word)
    requires HeaderOf(arr) == a && a in m.active.mem && m.active.mem[a].kind == ObjArray && fields / TWO32 == length
    requires length >= 2 || InChunk(m, a, FIELDS) ==> ReadWord(m, a, FIELDS) == Some(fields)
    requires var i := DecodeInt(idx);
             0 <= i < length && (i + 2 < length || InChunk(m, a, FIRST_ELEM + i)) ==>
               ReadWord(m, a, FIRST_ELEM + i) == Some(0)
    ensures ReadsAsNew(m, a, length, arr, idx)
  {
    hide HeaderOf, DecodeInt, ReadWord, Locate;
    if ReadWord(m, a, FIELDS) == Some(fields) {
      LocateKnown(m, arr, idx, fields);
    }
  }
}
