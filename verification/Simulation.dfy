// The byte-level machine running an assembled image behaves as the reference machine does.
module Simulation {
  import opened Words
  import opened Wrappers
  import opened Bytes
  import opened Isa
  import opened Assembly
  import opened Space
  import opened Collector
  import opened HeapOps
  import opened Machine
  import opened VmSpec
  import opened Reference

  // ---------- the relation between the two states ----------

  // What loading the image of c gives, for images addressable in 32 bits with a full table.
  ghost predicate LoadedFrom(c: Code, ld: Loaded) {
    ValidCode(c) && Addr(c, |c.instrs|) < TWO32 && |c.entries| <= FUNCTION_TABLE_SIZE && ld.bytes == Image(c) &&
    forall j {:trigger ld.table[j]} :: 0 <= j < |c.entries| ==>
      ld.table[j] == FuncInfo(Addr(c, c.entries[j].start), c.entries[j].frameSize % 0x1_0000)
  }

  // The saved words of every frame lie in the stack, innermost frame at fp.
  ghost predicate FramesRel(c: Code, frames: seq<Frame>, fp: nat, stack: Stack) {
    if frames == [] then fp == 0
    else
      var f := frames[|frames| - 1];
      fp == f.sp + 2 && f.sp + 2 <= STACK_SIZE && f.fp <= f.sp && f.ret <= |c.instrs| &&
      stack[f.sp] == f.fp && stack[f.sp + 1] == Addr(c, f.ret) &&
      FramesRel(c, frames[..|frames| - 1], f.fp, stack)
  }

  // Values agree; a saved cell holds some word that is no pointer.
  ghost predicate CellRel(c: Cell, w: Word) {
    if c.Val? then c.w == w else !IsPointer(w)
  }

  ghost predicate CellsRel(cells: Cells, stack: Stack) {
    forall i {:trigger cells[i]} {:trigger stack[i]} :: 0 <= i < 4096 ==> CellRel(cells[i], stack[i])
  }

  // In particular ip stands on an instruction boundary or at the end of the image.
  ghost predicate Rel(c: Code, s: Ref, v: Vm) {
    s.pc <= |c.instrs| && v.ip == Addr(c, s.pc) && v.core == s.core && v.sp == s.sp && v.fp == s.fp && s.fp <= s.sp &&
    CellsRel(s.stack, v.stack) && FramesRel(c, s.frames, s.fp, v.stack)
  }

  // The reference outcome decides the machine's, whenever the reference makes a claim.
  ghost predicate Agree(c: Code, r: Outcome<Ref>, q: Outcome<Vm>) {
    match r
    case Next(s) => q.Next? && Rel(c, s, q.s)
    case Halt(s) => q.Halt? && q.s.core == s.core
    case Throw(e) => q == Throw(e)
    case Undefined => true
  }

  // ---------- fetching ----------

  lemma {:induction false} AddrBound(c: Code, k: nat)
    requires k <= |c.instrs| && Addr(c, |c.instrs|) < TWO32
    ensures Addr(c, k) < TWO32
  {
    OffMonotone(c.instrs, k, |c.instrs|);
  }

  // The word at instruction k's address decodes to its fields; the operand follows.
  lemma {:induction false} FetchInstr(c: Code, ld: Loaded, k: nat)
    requires LoadedFrom(c, ld) && k < |c.instrs|
    ensures var a, i := Addr(c, k), c.instrs[k];
            Fetch(ld.bytes, a).Some? && Decode(Fetch(ld.bytes, a).value) == Fields(i) &&
            Addr(c, k + 1) == a + Size(i) &&
            (i.Load? ==> Fetch(ld.bytes, a + 4).Some? && Fetch(ld.bytes, a + 8).Some? &&
                         Fetch(ld.bytes, a + 4).value * TWO32 + Fetch(ld.bytes, a + 8).value == i.imm) &&
            (i.Branch? ==> i.target <= |c.instrs| && Fetch(ld.bytes, a + 4) == Some(Addr(c, i.target)))
  {
    hide Image, Encode, Decode, Fields, ReadU32;
    var a, i := Addr(c, k), c.instrs[k];
    ImageAt(c, k);
    AddrStep(c, k);
    FetchEncoded(ld.bytes, a, i, TargetAddr(c, i));
    if i.Branch? {
      AddrBound(c, i.target);
    }
  }

  // ---------- frames in the stack ----------

  lemma {:induction false} GuardedBelow(c: Code, frames: seq<Frame>, fp: nat, stack: Stack, slot: nat)
    requires FramesRel(c, frames, fp, stack) && Guarded(frames, slot)
    ensures slot < fp
  {
    var n := |frames| - 1;
    var k :| 0 <= k < |frames| && (frames[k].sp == slot || frames[k].sp + 1 == slot);
    if k < n {
      assert frames[..n][k] == frames[k];
      GuardedBelow(c, frames[..n], frames[n].fp, stack, slot);
    }
  }

  // Only the guarded slots matter.
  lemma {:induction false} FramesFrame(c: Code, frames: seq<Frame>, fp: nat, stack: Stack, stack': Stack)
    requires FramesRel(c, frames, fp, stack)
    requires forall slot: nat :: slot < 4096 && Guarded(frames, slot) ==> stack'[slot] == stack[slot]
    ensures FramesRel(c, frames, fp, stack')
  {
    if frames != [] {
      var n := |frames| - 1;
      var front, f := frames[..n], frames[n];
      assert Guarded(frames, f.sp) && Guarded(frames, f.sp + 1);
      forall slot: nat | slot < 4096 && Guarded(front, slot) ensures stack'[slot] == stack[slot] {
        var k :| 0 <= k < |front| && (front[k].sp == slot || front[k].sp + 1 == slot);
        assert frames[k] == front[k];
        assert Guarded(frames, slot);
      }
      FramesFrame(c, front, f.fp, stack, stack');
    }
  }

  // A write at or above fp leaves every saved word alone.
  lemma {:induction false} FramesAbove(c: Code, frames: seq<Frame>, fp: nat, stack: Stack, slot: nat, w: Word)
    requires FramesRel(c, frames, fp, stack) && fp <= slot < 4096
    ensures FramesRel(c, frames, fp, stack[slot := w])
  {
    forall g: nat | g < 4096 && Guarded(frames, g) ensures stack[slot := w][g] == stack[g] {
      GuardedBelow(c, frames, fp, stack, g);
    }
    FramesFrame(c, frames, fp, stack, stack[slot := w]);
  }

  // ---------- the instructions that touch code or stack ----------

  lemma {:induction false} SimPush(c: Code, s: Ref, v: Vm, w: Word)
    requires Rel(c, s, v)
    ensures Agree(c, RefPush(w, s), VmPush(w, v))
  {
    if s.sp < STACK_SIZE {
      FramesAbove(c, s.frames, s.fp, v.stack, s.sp, w);
    }
  }

  lemma {:induction false} SimPop(c: Code, s: Ref, v: Vm, rd: Byte)
    requires Rel(c, s, v)
    ensures Agree(c, RefPop(rd, s), VmPop(rd, v))
  {
    if s.fp < s.sp <= STACK_SIZE {
      assert CellRel(s.stack[s.sp - 1], v.stack[s.sp - 1]);
    }
  }

  lemma {:induction false} SimInsert(c: Code, s: Ref, v: Vm, slot: nat, rs: Byte)
    requires Rel(c, s, v)
    ensures Agree(c, RefInsert(slot, rs, s), VmInsert(slot, rs, v))
  {
    if slot < STACK_SIZE && !Guarded(s.frames, slot) {
      FramesFrame(c, s.frames, s.fp, v.stack, v.stack[slot := s.core.reg[rs]]);
    }
  }

  lemma {:induction false} SimRead(c: Code, s: Ref, v: Vm, slot: nat, rd: Byte)
    requires Rel(c, s, v)
    ensures Agree(c, RefRead(slot, rd, s), VmRead(slot, rd, v))
  {
    if slot < STACK_SIZE {
      assert CellRel(s.stack[slot], v.stack[slot]);
    }
  }

  lemma {:induction false} SimCall(c: Code, ld: Loaded, s: Ref, v: Vm, idx: nat)
    requires LoadedFrom(c, ld) && Rel(c, s, v)
    ensures Agree(c, RefCall(c, idx, s), VmCall(ld, idx, v))
  {
    hide Addr, Image, IsPointer, IsDouble;
    if idx < |c.entries| && s.sp + 2 <= STACK_SIZE {
      var t := RefCall(c, idx, s).s;
      AddrBound(c, s.pc);
      FramesAbove(c, s.frames, s.fp, v.stack, s.sp, s.fp);
      FramesAbove(c, s.frames, s.fp, v.stack[s.sp := v.fp], s.sp + 1, v.ip);
      SmallWordsAreDoubles(v.fp);
      SmallWordsAreDoubles(v.ip);
      assert ld.table[idx].entryIP == Addr(c, c.entries[idx].start);
      assert t.frames[..|s.frames|] == s.frames;
    }
  }

  lemma {:induction false} SimRet(c: Code, s: Ref, v: Vm)
    requires Rel(c, s, v)
    ensures Agree(c, RefRet(s), VmRet(v))
  {
  }

  // ---------- collections ----------

  // Roots agree on pointers, so both machines mark the same objects.
  lemma {:induction false} SameNamed(ws: seq<Word>, vs: seq<Word>)
    requires |ws| == |vs|
    requires forall i :: 0 <= i < |ws| ==>
               (IsPointer(ws[i]) <==> IsPointer(vs[i])) && (IsPointer(ws[i]) ==> ws[i] == vs[i])
    ensures Named(ws) == Named(vs)
  {
    hide IsPointer, HeaderOf;
    forall a | a in Named(ws) ensures a in Named(vs) {
      var i :| 0 <= i < |ws| && IsPointer(ws[i]) && HeaderOf(ws[i]) == a;
      assert IsPointer(vs[i]) && HeaderOf(vs[i]) == a;
    }
    forall a | a in Named(vs) ensures a in Named(ws) {
      var i :| 0 <= i < |vs| && IsPointer(vs[i]) && HeaderOf(vs[i]) == a;
      assert IsPointer(ws[i]) && HeaderOf(ws[i]) == a;
    }
  }

  lemma {:induction false} SameRoots(s: Ref, v: Vm)
    requires CellsRel(s.stack, v.stack) && v.core == s.core && v.sp == s.sp <= STACK_SIZE
    ensures Named(s.core.reg + CellWords(s.stack[..s.sp])) == Named(v.core.reg + v.stack[..v.sp])
  {
    SmallWordsAreDoubles(0);
    hide IsPointer;
    var ws, vs := CellWords(s.stack[..s.sp]), v.stack[..v.sp];
    forall i | 0 <= i < |ws| ensures (IsPointer(ws[i]) <==> IsPointer(vs[i])) && (IsPointer(ws[i]) ==> ws[i] == vs[i]) {
      assert CellRel(s.stack[i], v.stack[i]);
    }
    SameNamed(s.core.reg + ws, v.core.reg + vs);
  }

  // A patched pointer is no saved word and a saved word is not patched.
  lemma {:induction false} PatchRel(fwd: map<nat, nat>, cell: Cell, w: Word)
    requires CellRel(cell, w)
    ensures CellRel(PatchCell(fwd, cell), Patch(fwd, w))
  {
  }

  lemma {:induction false} SimGc(env: Env, c: Code, s: Ref, v: Vm)
    requires Rel(c, s, v) && Addr(c, |c.instrs|) < TWO32
    ensures !RefGc(env, s).Halt? && Agree(c, RefGc(env, s), VmGc(env, v))
  {
    if s.sp <= STACK_SIZE {
      SameRoots(s, v);
      var g := Gc(env, s.core.mem, s.core.reg + CellWords(s.stack[..s.sp]));
      assert g == Gc(env, v.core.mem, v.core.reg + v.stack[..v.sp]);
      if g.Next? {
        var fwd := g.s.1;
        var stack' := PatchAll(fwd, v.stack[..v.sp]) + v.stack[v.sp..];
        SimPatch(c, s, v, fwd, stack');
      }
    }
  }

  lemma {:induction false} SimPatch(c: Code, s: Ref, v: Vm, fwd: map<nat, nat>, stack': Stack)
    requires Rel(c, s, v) && Addr(c, |c.instrs|) < TWO32 && s.sp <= STACK_SIZE
    requires stack' == PatchAll(fwd, v.stack[..v.sp]) + v.stack[v.sp..]
    ensures CellsRel(PatchCells(fwd, s.stack, s.sp), stack') && FramesRel(c, s.frames, s.fp, stack')
  {
    var cells' := PatchCells(fwd, s.stack, s.sp);
    forall i {:trigger cells'[i]} | 0 <= i < 4096 ensures CellRel(cells'[i], stack'[i]) {
      assert CellRel(s.stack[i], v.stack[i]);
      if i < s.sp {
        PatchRel(fwd, s.stack[i], v.stack[i]);
      }
    }
    forall slot: nat | slot < 4096 && Guarded(s.frames, slot) ensures stack'[slot] == v.stack[slot] {
      SavedIsSmall(c, s.frames, s.fp, v.stack, slot);
      SmallWordsAreDoubles(v.stack[slot]);
    }
    FramesFrame(c, s.frames, s.fp, v.stack, stack');
  }

  // Saved words are stack positions and code addresses: below 2^32.
  lemma {:induction false} SavedIsSmall(c: Code, frames: seq<Frame>, fp: nat, stack: Stack, slot: nat)
    requires FramesRel(c, frames, fp, stack) && Guarded(frames, slot) && slot < 4096 && Addr(c, |c.instrs|) < TWO32
    ensures stack[slot] < TWO32
  {
    var n := |frames| - 1;
    var k :| 0 <= k < |frames| && (frames[k].sp == slot || frames[k].sp + 1 == slot);
    if k < n {
      assert frames[..n][k] == frames[k];
      SavedIsSmall(c, frames[..n], frames[n].fp, stack, slot);
    } else {
      AddrBound(c, frames[n].ret);
    }
  }

  lemma {:induction false} SimLift(c: Code, s: Ref, v: Vm, o: Outcome<Core>)
    requires Rel(c, s, v)
    ensures Agree(c, LiftRef(s, o), Lift(v, o))
  {
  }

  lemma {:induction false} SimArray(env: Env, c: Code, s: Ref, v: Vm, rd: Byte, rlen: Byte, rty: Byte, gc: bool)
    requires Rel(c, s, v) && Addr(c, |c.instrs|) < TWO32
    ensures Agree(c, RefArray(env, rd, rlen, rty, s, gc), VmArray(env, rd, rlen, rty, v, gc))
  {
    hide CoreNewArray, RefGc, VmGc, CellsRel, FramesRel;
    SimGc(env, c, s, v);
    var r := if gc then RefGc(env, s) else Next(s);
    var q := if gc then VmGc(env, v) else Next(v);
    if r.Next? {
      SimLift(c, r.s, q.s, CoreNewArray(env, rd, DecodeInt(s.core.reg[rlen]), rty, r.s.core));
    }
  }

  // ---------- one step ----------

  // Execute on a fetched mnemonic, case by case.
  function VmOp(env: Env, m: Mnemonic, ra: Byte, rb: Byte, rc: Byte, v: Vm, gc: bool): Outcome<Vm> {
    match m
    case Add => Lift(v, CoreArith(env, ArithOp.Add, ra, rb, rc, v.core))
    case Sub => Lift(v, CoreArith(env, ArithOp.Sub, ra, rb, rc, v.core))
    case Mul => Lift(v, CoreArith(env, ArithOp.Mul, ra, rb, rc, v.core))
    case Div => Lift(v, CoreArith(env, ArithOp.Div, ra, rb, rc, v.core))
    case Cmp => Lift(v, CoreCompare(env, ra, rb, v.core))
    case Mov => Lift(v, CoreMov(ra, rb, rc, v.core))
    case End => Lift(v, CoreEnd(ra, v.core))
    case DbgRet => Lift(v, CorePrint(ra, v.core))
    case ArrIns => Lift(v, CoreWrite(ra, rb, rc, v.core))
    case ArrRead => Lift(v, CoreRead(ra, rb, rc, v.core))
    case Arr => VmArray(env, ra, rb, rc, v, gc)
    case Ret => VmRet(v)
    case Push => VmPush(v.core.reg[ra], v)
    case Pop => VmPop(ra, v)
    case Ins => VmInsert(Slot(ra, rb), rc, v)
    case Read => VmRead(Slot(ra, rb), rc, v)
  }

  lemma {:induction false} ExecuteOp(env: Env, ld: Loaded, m: Mnemonic, ra: Byte, rb: Byte, rc: Byte, v: Vm, gc: bool)
    ensures Execute(env, ld, Decoded(Opcode(m), ra, rb, rc), v, gc) == VmOp(env, m, ra, rb, rc, v, gc)
  {
    hide CoreArith, CoreCompare, CoreMov, CoreEnd, CorePrint, CoreWrite, CoreRead, VmArray, VmRet, VmPush, VmInsert,
      VmRead, VmPop, Lift;
  }

  lemma {:induction false} SimOp(env: Env, c: Code, m: Mnemonic, ra: Byte, rb: Byte, rc: Byte, s: Ref, v: Vm, gc: bool)
    requires Rel(c, s, v) && Addr(c, |c.instrs|) < TWO32
    ensures Agree(c, RefOp(env, m, ra, rb, rc, s, gc), VmOp(env, m, ra, rb, rc, v, gc))
  {
    hide CoreArith, CoreCompare, CoreMov, CoreEnd, CorePrint, CoreWrite, CoreRead, RefArray, VmArray;
    hide VmRet, VmPush, VmInsert, VmRead, VmPop, RefRet, RefPush, RefInsert, RefRead, RefPop, Lift, LiftRef, CellsRel,
      FramesRel;
    match m
    case Add => SimLift(c, s, v, CoreArith(env, ArithOp.Add, ra, rb, rc, s.core));
    case Sub => SimLift(c, s, v, CoreArith(env, ArithOp.Sub, ra, rb, rc, s.core));
    case Mul => SimLift(c, s, v, CoreArith(env, ArithOp.Mul, ra, rb, rc, s.core));
    case Div => SimLift(c, s, v, CoreArith(env, ArithOp.Div, ra, rb, rc, s.core));
    case Cmp => SimLift(c, s, v, CoreCompare(env, ra, rb, s.core));
    case Mov => SimLift(c, s, v, CoreMov(ra, rb, rc, s.core));
    case End => SimLift(c, s, v, CoreEnd(ra, s.core));
    case DbgRet => SimLift(c, s, v, CorePrint(ra, s.core));
    case ArrIns => SimLift(c, s, v, CoreWrite(ra, rb, rc, s.core));
    case ArrRead => SimLift(c, s, v, CoreRead(ra, rb, rc, s.core));
    case Arr => SimArray(env, c, s, v, ra, rb, rc, gc);
    case Ret => SimRet(c, s, v);
    case Push => SimPush(c, s, v, s.core.reg[ra]);
    case Pop => SimPop(c, s, v, ra);
    case Ins => SimInsert(c, s, v, Slot(ra, rb), rc);
    case Read => SimRead(c, s, v, Slot(ra, rb), rc);
  }

  lemma {:induction false} SimStep(env: Env, c: Code, ld: Loaded, s: Ref, v: Vm, gc: bool)
    requires LoadedFrom(c, ld) && Rel(c, s, v)
    ensures Agree(c, RefStep(env, c, s, gc), VmStep(env, ld, v, gc))
  {
    hide Addr, Image, Execute, Decode, Fetch, Fields, CellsRel, FramesRel, ValidCode, RefOp, RefCall;
    if s.pc < |c.instrs| {
      var i, d := c.instrs[s.pc], Fields(c.instrs[s.pc]);
      var v' := v.(ip := v.ip + 4);
      FetchInstr(c, ld, s.pc);
      assert VmStep(env, ld, v, gc) == Execute(env, ld, d, v', gc);
      SimInstr(env, c, ld, s, v, i, gc);
    }
  }

  // v stands at instruction i; ip moves past the instruction word, which for a plain
  // instruction is the next one.
  lemma {:induction false} SimInstr(env: Env, c: Code, ld: Loaded, s: Ref, v: Vm, i: Instr<nat>, gc: bool)
    requires LoadedFrom(c, ld) && Rel(c, s, v) && s.pc < |c.instrs| && i == c.instrs[s.pc]
    ensures Agree(c, RefStep(env, c, s, gc), Execute(env, ld, Fields(i), v.(ip := v.ip + 4), gc))
  {
    hide Addr, Image, ValidCode, CellsRel, FramesRel, Execute, Decode, Fetch;
    var v' := v.(ip := v.ip + 4);
    FetchInstr(c, ld, s.pc);
    match i
    case Op(m, ra, rb, rc) =>
      ExecuteOp(env, ld, m, ra, rb, rc, v', gc);
      SimOp(env, c, m, ra, rb, rc, s.(pc := s.pc + 1), v', gc);
    case Call(idx) =>
      CallIndex(idx);
      ExecuteCall(env, ld, Fields(i), v', gc);
      SimCall(c, ld, s.(pc := s.pc + 1), v', idx);
    case Load(rd, imm) =>
      ExecuteLoad(env, ld, Fields(i), v', gc);
    case Branch(cond, t) =>
      ExecuteBranch(env, ld, cond, v', gc);
  }

  lemma {:induction false} ExecuteCall(env: Env, ld: Loaded, d: Decoded, v: Vm, gc: bool)
    requires d.opcode == OP_CALL
    ensures Execute(env, ld, d, v, gc) == VmCall(ld, d.ra * 0x1_0000 + d.rb * 0x100 + d.rc, v)
  {
    hide VmCall;
  }

  lemma {:induction false} ExecuteLoad(env: Env, ld: Loaded, d: Decoded, v: Vm, gc: bool)
    requires d.opcode == OP_LOAD64
    ensures Execute(env, ld, d, v, gc) == VmLoad(ld, d.ra, v)
  {
    hide VmLoad;
  }

  lemma {:induction false} ExecuteBranch(env: Env, ld: Loaded, cond: Cond, v: Vm, gc: bool)
    ensures Execute(env, ld, Decoded(CondCode(cond), 0, 0, 0), v, gc) == VmBranch(ld, cond, v)
  {
    hide VmBranch;
  }

  // ---------- whole runs ----------

  // Every run: the machine on the image does step for step what the reference machine does on
  // the instructions, for any choice of collections, until the reference makes no claim.
  lemma {:induction false} SimRun(env: Env, c: Code, ld: Loaded, s: Ref, v: Vm, gcs: seq<bool>)
    requires LoadedFrom(c, ld) && Rel(c, s, v)
    ensures Agree(c, RefRun(env, c, s, gcs), VmRun(env, ld, v, gcs))
    decreases |gcs|
  {
    hide RefStep, VmStep, Rel, LoadedFrom;
    if gcs != [] {
      SimStep(env, c, ld, s, v, gcs[0]);
      var r := RefStep(env, c, s, gcs[0]);
      if r.Next? {
        SimRun(env, c, ld, r.s, VmStep(env, ld, v, gcs[0]).s, gcs[1..]);
      }
    }
  }
}
