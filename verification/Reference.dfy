// The meaning of assembled code without bytes: the position is an instruction index, branches
// name instruction indices, and calls keep a separate list of frames instead of saved words.
// A stack cell last written by `call` is Saved: the machine never looks inside it, and a
// program that does leaves the discipline (outcome Undefined).
module Reference {
  import opened Words
  import opened Bytes
  import opened Isa
  import opened Assembly
  import opened Space
  import opened Collector
  import opened HeapOps
  import opened Machine
  import opened VmSpec

  datatype Cell = Val(w: Word) | Saved

  type Cells = s: seq<Cell> | |s| == 4096 witness seq(4096, _ => Val(0))

  // Where to continue, and the fp and sp the caller had.
  datatype Frame = Frame(ret: nat, fp: nat, sp: nat)

  datatype Ref = Ref(pc: nat, core: Core, stack: Cells, sp: nat, fp: nat, frames: seq<Frame>)

  function LiftRef(s: Ref, o: Outcome<Core>): Outcome<Ref> {
    match o
    case Next(c) => Next(s.(core := c))
    case Halt(c) => Halt(s.(core := c))
    case Throw(e) => Throw(e)
    case Undefined => Undefined
  }

  function RefPush(w: Word, s: Ref): Outcome<Ref> {
    if s.sp < STACK_SIZE then Next(s.(stack := s.stack[s.sp := Val(w)], sp := s.sp + 1)) else Undefined
  }

  // A pop stays above the frame's base and takes a value.
  function RefPop(rd: Byte, s: Ref): Outcome<Ref> {
    if s.fp < s.sp <= STACK_SIZE && s.stack[s.sp - 1].Val? then
      Next(s.(sp := s.sp - 1, core := SetReg(s.core, rd, s.stack[s.sp - 1].w)))
    else Undefined
  }

  function RefCall(c: Code, idx: nat, s: Ref): Outcome<Ref> {
    if idx >= |c.entries| || s.sp + 2 > STACK_SIZE then Undefined
    else
      var f := c.entries[idx];
      Next(s.(pc := f.start, frames := s.frames + [Frame(s.pc, s.fp, s.sp)],
              stack := s.stack[s.sp := Saved][s.sp + 1 := Saved],
              sp := s.sp + 2 + f.frameSize % 0x1_0000, fp := s.sp + 2))
  }

  function RefRet(s: Ref): Outcome<Ref> {
    if s.frames == [] then Undefined
    else
      var f := s.frames[|s.frames| - 1];
      Next(s.(pc := f.ret, fp := f.fp, sp := f.sp, frames := s.frames[..|s.frames| - 1]))
  }

  // The two cells a frame's saved words occupy in the byte-level machine.
  predicate Guarded(frames: seq<Frame>, slot: nat) {
    exists k :: 0 <= k < |frames| && (frames[k].sp == slot || frames[k].sp + 1 == slot)
  }

  function RefInsert(slot: nat, rs: Byte, s: Ref): Outcome<Ref> {
    if slot < STACK_SIZE && !Guarded(s.frames, slot) then Next(s.(stack := s.stack[slot := Val(s.core.reg[rs])]))
    else Undefined
  }

  function RefRead(slot: nat, rd: Byte, s: Ref): Outcome<Ref> {
    if slot < STACK_SIZE && s.stack[slot].Val? then Next(s.(core := SetReg(s.core, rd, s.stack[slot].w))) else Undefined
  }

  // ---------- collections ----------

  function CellWord(c: Cell): Word {
    if c.Val? then c.w else 0
  }

  function CellWords(cs: seq<Cell>): (r: seq<Word>)
    ensures |r| == |cs| && forall k {:trigger r[k]} :: 0 <= k < |r| ==> r[k] == CellWord(cs[k])
  {
    seq(|cs|, k requires 0 <= k < |cs| => CellWord(cs[k]))
  }

  function PatchCell(fwd: map<nat, nat>, c: Cell): Cell {
    if c.Val? then Val(Patch(fwd, c.w)) else Saved
  }

  // Cells below sp are roots; those above are left as they are.
  function PatchCells(fwd: map<nat, nat>, cs: seq<Cell>, sp: nat): (r: seq<Cell>)
    ensures |r| == |cs|
    ensures forall k {:trigger r[k]} :: 0 <= k < |r| ==> r[k] == if k < sp then PatchCell(fwd, cs[k]) else cs[k]
  {
    seq(|cs|, k requires 0 <= k < |cs| => if k < sp then PatchCell(fwd, cs[k]) else cs[k])
  }

  function RefGc(env: Env, s: Ref): Outcome<Ref> {
    if s.sp > STACK_SIZE then Undefined
    else
      match Gc(env, s.core.mem, s.core.reg + CellWords(s.stack[..s.sp]))
      case Next((m, fwd)) =>
        Next(s.(core := s.core.(reg := PatchAll(fwd, s.core.reg), mem := m), stack := PatchCells(fwd, s.stack, s.sp)))
      case Halt(_) => Undefined
      case Throw(e) => Throw(e)
      case Undefined => Undefined
  }

  function RefArray(env: Env, rd: Byte, rlen: Byte, rty: Byte, s: Ref, gc: bool): Outcome<Ref> {
    var length := DecodeInt(s.core.reg[rlen]);
    var r := if gc then RefGc(env, s) else Next(s);
    if r.Next? then LiftRef(r.s, CoreNewArray(env, rd, length, rty, r.s.core)) else r
  }

  // ---------- one instruction ----------

  // s.pc already points to the next instruction.
  function RefOp(env: Env, m: Mnemonic, ra: Byte, rb: Byte, rc: Byte, s: Ref, gc: bool): Outcome<Ref> {
    match m
    case Add => LiftRef(s, CoreArith(env, ArithOp.Add, ra, rb, rc, s.core))
    case Sub => LiftRef(s, CoreArith(env, ArithOp.Sub, ra, rb, rc, s.core))
    case Mul => LiftRef(s, CoreArith(env, ArithOp.Mul, ra, rb, rc, s.core))
    case Div => LiftRef(s, CoreArith(env, ArithOp.Div, ra, rb, rc, s.core))
    case Cmp => LiftRef(s, CoreCompare(env, ra, rb, s.core))
    case Mov => LiftRef(s, CoreMov(ra, rb, rc, s.core))
    case End => LiftRef(s, CoreEnd(ra, s.core))
    case DbgRet => LiftRef(s, CorePrint(ra, s.core))
    case ArrIns => LiftRef(s, CoreWrite(ra, rb, rc, s.core))
    case ArrRead => LiftRef(s, CoreRead(ra, rb, rc, s.core))
    case Arr => RefArray(env, ra, rb, rc, s, gc)
    case Ret => RefRet(s)
    case Push => RefPush(s.core.reg[ra], s)
    case Pop => RefPop(ra, s)
    case Ins => RefInsert(Slot(ra, rb), rc, s)
    case Read => RefRead(Slot(ra, rb), rc, s)
  }

  function RefStep(env: Env, c: Code, s: Ref, gc: bool): Outcome<Ref> {
    if s.pc >= |c.instrs| then Undefined
    else
      var s' := s.(pc := s.pc + 1);
      match c.instrs[s.pc]
      case Op(m, ra, rb, rc) => RefOp(env, m, ra, rb, rc, s', gc)
      case Load(rd, imm) => Next(s'.(core := SetReg(s.core, rd, imm)))
      case Call(idx) => RefCall(c, idx, s')
      case Branch(cond, t) => if Taken(cond, s.core.flag) then Next(s.(pc := t)) else Next(s')
  }

  function RefRun(env: Env, c: Code, s: Ref, gcs: seq<bool>): Outcome<Ref>
    decreases |gcs|
  {
    if gcs == [] then Next(s)
    else
      var r := RefStep(env, c, s, gcs[0]);
      if r.Next? then RefRun(env, c, r.s, gcs[1..]) else r
  }

  // A run that has stopped makes no further choices.
  lemma {:induction false} StoppedRun(env: Env, c: Code, s: Ref, gcs: seq<bool>, more: seq<bool>)
    requires !RefRun(env, c, s, gcs).Next?
    ensures RefRun(env, c, s, gcs + more) == RefRun(env, c, s, gcs)
    decreases |gcs|
  {
    hide RefStep;
    var r := RefStep(env, c, s, gcs[0]);
    assert (gcs + more)[1..] == gcs[1..] + more;
    if r.Next? {
      StoppedRun(env, c, r.s, gcs[1..], more);
    }
  }

  // Nothing has happened yet: the first instruction is next.
  function StartRef(): Ref {
    Ref(0, Core(ZeroWords(256), FLAG_GREATER, [], NO_HEAP), seq(4096, _ => Val(0)), 0, 0, [])
  }

  // ---------- calls ----------

  // Steps from s to t in n steps, every state strictly between (and t, unless n is 0) having
  // more than `depth` frames.
  ghost predicate InsideCall(env: Env, c: Code, s: Ref, gcs: seq<bool>, depth: nat, t: Ref)
    decreases |gcs|
  {
    |s.frames| > depth &&
    if gcs == [] then s == t
    else
      var r := RefStep(env, c, s, gcs[0]);
      r.Next? && InsideCall(env, c, r.s, gcs[1..], depth, t)
  }

  lemma {:induction false} OpKeepsFrames(env: Env, m: Mnemonic, ra: Byte, rb: Byte, rc: Byte, s: Ref, gc: bool)
    requires m != Ret && RefOp(env, m, ra, rb, rc, s, gc).Next?
    ensures RefOp(env, m, ra, rb, rc, s, gc).s.frames == s.frames
  {
    hide CoreArith, CoreCompare, CoreMov, CoreEnd, CorePrint, CoreWrite, CoreRead, CoreNewArray, Gc;
  }

  lemma {:induction false} RetPopsFrame(s: Ref, depth: nat)
    requires |s.frames| > depth && RefRet(s).Next?
    ensures var t := RefRet(s).s;
            |t.frames| >= depth && t.frames[..depth] == s.frames[..depth] &&
            (|t.frames| > depth ==> t.frames[depth] == s.frames[depth]) &&
            (|t.frames| == depth ==>
               t.pc == s.frames[depth].ret && t.fp == s.frames[depth].fp && t.sp == s.frames[depth].sp)
  {
  }

  lemma {:induction false} StepKeepsOuterFrames(env: Env, c: Code, s: Ref, gc: bool, depth: nat)
    requires |s.frames| > depth && RefStep(env, c, s, gc).Next?
    ensures var t := RefStep(env, c, s, gc).s;
            |t.frames| >= depth && t.frames[..depth] == s.frames[..depth] &&
            (|t.frames| > depth ==> t.frames[depth] == s.frames[depth]) &&
            (|t.frames| == depth ==>
               t.pc == s.frames[depth].ret && t.fp == s.frames[depth].fp && t.sp == s.frames[depth].sp)
  {
    var i := c.instrs[s.pc];
    var s' := s.(pc := s.pc + 1);
    if i.Op? && i.m == Ret {
      RetPopsFrame(s', depth);
      assert RefStep(env, c, s, gc) == RefRet(s') by {
        hide RefRet;
      }
    } else if i.Op? {
      hide RefOp;
      OpKeepsFrames(env, i.m, i.ra, i.rb, i.rc, s', gc);
    } else {
      hide RefOp;
    }
  }

  lemma {:induction false} CallKeepsOuterFrames(env: Env, c: Code, s: Ref, gcs: seq<bool>, depth: nat, t: Ref)
    requires InsideCall(env, c, s, gcs, depth, t)
    ensures |t.frames| > depth && t.frames[..depth + 1] == s.frames[..depth + 1]
    decreases |gcs|
  {
    hide RefStep;
    if gcs != [] {
      var r := RefStep(env, c, s, gcs[0]).s;
      CallKeepsOuterFrames(env, c, r, gcs[1..], depth, t);
      StepKeepsOuterFrames(env, c, s, gcs[0], depth);
      OneMoreFrame(s.frames, r.frames, depth);
    }
  }

  lemma {:induction false} OneMoreFrame(a: seq<Frame>, b: seq<Frame>, d: nat)
    requires |a| > d && |b| > d && b[..d] == a[..d] && b[d] == a[d]
    ensures b[..d + 1] == a[..d + 1]
  {
    assert b[..d + 1] == b[..d] + [b[d]] && a[..d + 1] == a[..d] + [a[d]];
  }

  // A call, then any computation that stays inside it (with any nesting of further calls), then
  // the step that leaves it: the caller continues after the call with its own fp and sp,
  // whatever the callee left pushed.
  lemma {:induction false} CallReturns(env: Env, c: Code, s: Ref, gc: bool, gcs: seq<bool>, last: bool, t: Ref)
    requires s.pc < |c.instrs| && c.instrs[s.pc].Call? && RefStep(env, c, s, gc).Next?
    requires InsideCall(env, c, RefStep(env, c, s, gc).s, gcs, |s.frames|, t)
    requires RefStep(env, c, t, last).Next? && |RefStep(env, c, t, last).s.frames| == |s.frames|
    ensures var u := RefStep(env, c, t, last).s;
            u.pc == s.pc + 1 && u.fp == s.fp && u.sp == s.sp && u.frames == s.frames
  {
    hide RefOp;
    var callee, d := RefStep(env, c, s, gc).s, |s.frames|;
    assert callee.frames == s.frames + [Frame(s.pc + 1, s.fp, s.sp)];
    CallKeepsOuterFrames(env, c, callee, gcs, d, t);
    StepKeepsOuterFrames(env, c, t, last, d);
    var u := RefStep(env, c, t, last).s;
    assert t.frames[d] == t.frames[..d + 1][d] == callee.frames[d];
    assert t.frames[..d] == t.frames[..d + 1][..d] == callee.frames[..d] == s.frames;
    assert u.frames == u.frames[..d];
  }
}
