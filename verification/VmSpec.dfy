// The virtual machine as a function from state to state: fetch a word at ip, decode it,
// execute it (src/vm/vm.h, src/vm/vm.cpp:30-37, src/vm/execution.cpp, src/vm/decode.cpp).
module VmSpec {
  import opened Words
  import opened Wrappers
  import opened Bytes
  import opened Isa
  import opened Space
  import opened Collector
  import opened HeapOps
  import opened Machine

  const STACK_SIZE: nat := 4096
  const FUNCTION_TABLE_SIZE: nat := 2048

  datatype FuncInfo = FuncInfo(entryIP: nat, frameSize: nat)

  type Table = t: seq<FuncInfo> | |t| == 2048 witness seq(2048, _ => FuncInfo(0, 0))

  function ZeroTable(): Table {
    seq(2048, _ => FuncInfo(0, 0))
  }

  type Stack = s: seq<Word> | |s| == 4096 witness ZeroWords(4096)

  // What loading leaves fixed.
  datatype Loaded = Loaded(bytes: seq<Byte>, table: Table)

  datatype Vm = Vm(ip: nat, core: Core, stack: Stack, sp: nat, fp: nat)

  function Fetch(bytes: seq<Byte>, ip: nat): Option<nat> {
    if ip + 4 <= |bytes| then Some(ReadU32(bytes, ip)) else None
  }

  function Lift(s: Vm, o: Outcome<Core>): Outcome<Vm> {
    match o
    case Next(c) => Next(s.(core := c))
    case Halt(c) => Halt(s.(core := c))
    case Throw(e) => Throw(e)
    case Undefined => Undefined
  }

  function VmLoad(ld: Loaded, rd: Byte, s: Vm): Outcome<Vm> {
    var (hi, lo) := (Fetch(ld.bytes, s.ip), Fetch(ld.bytes, s.ip + 4));
    if hi.None? || lo.None? then Undefined
    else Next(s.(ip := s.ip + 8, core := SetReg(s.core, rd, hi.value * TWO32 + lo.value)))
  }

  function VmBranch(ld: Loaded, cond: Cond, s: Vm): Outcome<Vm> {
    if Taken(cond, s.core.flag) then
      var t := Fetch(ld.bytes, s.ip);
      if t.None? then Undefined else Next(s.(ip := t.value))
    else Next(s.(ip := s.ip + 4))
  }

  function VmPush(w: Word, s: Vm): Outcome<Vm> {
    if s.sp < STACK_SIZE then Next(s.(stack := s.stack[s.sp := w], sp := s.sp + 1)) else Undefined
  }

  function VmPop(rd: Byte, s: Vm): Outcome<Vm> {
    if 0 < s.sp <= STACK_SIZE then Next(s.(sp := s.sp - 1, core := SetReg(s.core, rd, s.stack[s.sp - 1])))
    else Undefined
  }

  // Push fp, push ip, set fp, reserve the frame, jump.
  function VmCall(ld: Loaded, idx: nat, s: Vm): Outcome<Vm> {
    if idx >= FUNCTION_TABLE_SIZE || s.sp + 2 > STACK_SIZE || s.fp >= TWO64 || s.ip >= TWO64 then Undefined
    else
      var f := ld.table[idx];
      Next(s.(ip := f.entryIP, stack := s.stack[s.sp := s.fp][s.sp + 1 := s.ip], sp := s.sp + 2 + f.frameSize,
        fp := s.sp + 2))
  }

  // Drop the frame, pop ip, pop fp.
  function VmRet(s: Vm): Outcome<Vm> {
    if 2 <= s.fp <= STACK_SIZE then Next(s.(ip := s.stack[s.fp - 1], fp := s.stack[s.fp - 2], sp := s.fp - 2))
    else Undefined
  }

  function Slot(hi: Byte, lo: Byte): nat {
    256 * hi + lo
  }

  function VmInsert(slot: nat, rs: Byte, s: Vm): Outcome<Vm> {
    if slot < STACK_SIZE then Next(s.(stack := s.stack[slot := s.core.reg[rs]])) else Undefined
  }

  function VmRead(slot: nat, rd: Byte, s: Vm): Outcome<Vm> {
    if slot < STACK_SIZE then Next(s.(core := SetReg(s.core, rd, s.stack[slot]))) else Undefined
  }

  // A collection started by this machine: roots are the registers and the stack below sp.
  function VmGc(env: Env, s: Vm): Outcome<Vm> {
    if s.sp > STACK_SIZE then Undefined
    else
      match Gc(env, s.core.mem, s.core.reg + s.stack[..s.sp])
      case Next((m, fwd)) =>
        Next(s.(core := s.core.(reg := PatchAll(fwd, s.core.reg), mem := m),
                stack := PatchAll(fwd, s.stack[..s.sp]) + s.stack[s.sp..]))
      case Halt(_) => Undefined
      case Throw(e) => Throw(e)
      case Undefined => Undefined
  }

  function VmArray(env: Env, rd: Byte, rlen: Byte, rty: Byte, s: Vm, gc: bool): Outcome<Vm> {
    var length := DecodeInt(s.core.reg[rlen]);
    var r := if gc then VmGc(env, s) else Next(s);
    if r.Next? then Lift(r.s, CoreNewArray(env, rd, length, rty, r.s.core)) else r
  }

  // s.ip already points past the instruction word; gc says whether an allocation collects first.
  function Execute(env: Env, ld: Loaded, d: Decoded, s: Vm, gc: bool): Outcome<Vm> {
    var c := s.core;
    if d.opcode == OP_ADD then Lift(s, CoreArith(env, ArithOp.Add, d.ra, d.rb, d.rc, c))
    else if d.opcode == OP_SUB then Lift(s, CoreArith(env, ArithOp.Sub, d.ra, d.rb, d.rc, c))
    else if d.opcode == OP_MUL then Lift(s, CoreArith(env, ArithOp.Mul, d.ra, d.rb, d.rc, c))
    else if d.opcode == OP_DIV then Lift(s, CoreArith(env, ArithOp.Div, d.ra, d.rb, d.rc, c))
    else if d.opcode == OP_LOAD64 then VmLoad(ld, d.ra, s)
    else if d.opcode == OP_CMP then Lift(s, CoreCompare(env, d.ra, d.rb, c))
    else if d.opcode == OP_JE then VmBranch(ld, Eq, s)
    else if d.opcode == OP_JNE then VmBranch(ld, Ne, s)
    else if d.opcode == OP_JL then VmBranch(ld, Lt, s)
    else if d.opcode == OP_JG then VmBranch(ld, Gt, s)
    else if d.opcode == OP_CALL then VmCall(ld, d.ra * 0x1_0000 + d.rb * 0x100 + d.rc, s)
    else if d.opcode == OP_RET then VmRet(s)
    else if d.opcode == OP_PUSH then VmPush(c.reg[d.ra], s)
    else if d.opcode == OP_POP then VmPop(d.ra, s)
    else if d.opcode == OP_MOV then Lift(s, CoreMov(d.ra, d.rb, d.rc, c))
    else if d.opcode == OP_INSERT_INTO_STACK then VmInsert(Slot(d.ra, d.rb), d.rc, s)
    else if d.opcode == OP_READ_FROM_STACK then VmRead(Slot(d.ra, d.rb), d.rc, s)
    else if d.opcode == OP_ARR_INIT then VmArray(env, d.ra, d.rb, d.rc, s, gc)
    else if d.opcode == OP_ARR_INSERT then Lift(s, CoreWrite(d.ra, d.rb, d.rc, c))
    else if d.opcode == OP_ARR_READ then Lift(s, CoreRead(d.ra, d.rb, d.rc, c))
    else if d.opcode == OP_END then Lift(s, CoreEnd(d.ra, c))
    else if d.opcode == OP_DEBUG_RETURN then Lift(s, CorePrint(d.ra, c))
    else Throw(BadOpcode)
  }

  function VmStep(env: Env, ld: Loaded, s: Vm, gc: bool): Outcome<Vm> {
    var w := Fetch(ld.bytes, s.ip);
    if w.None? then Undefined else Execute(env, ld, Decode(w.value), s.(ip := s.ip + 4), gc)
  }

  // A run of |gcs| steps, or fewer when it stops.
  function VmRun(env: Env, ld: Loaded, s: Vm, gcs: seq<bool>): Outcome<Vm>
    decreases |gcs|
  {
    if gcs == [] then Next(s)
    else
      var r := VmStep(env, ld, s, gcs[0]);
      if r.Next? then VmRun(env, ld, r.s, gcs[1..]) else r
  }

  // The run the machine makes in n steps: an allocation collects first when more than 70% of
  // max is in use.
  function RunFor(env: Env, ld: Loaded, s: Vm, max: nat, n: nat): Outcome<Vm>
    decreases n
  {
    if n == 0 then Next(s)
    else
      var r := VmStep(env, ld, s, Trigger(s.core.mem, max));
      if r.Next? then RunFor(env, ld, r.s, max, n - 1) else r
  }

  function Choices(env: Env, ld: Loaded, s: Vm, max: nat, n: nat): (gcs: seq<bool>)
    ensures |gcs| <= n
    decreases n
  {
    if n == 0 then []
    else
      var gc := Trigger(s.core.mem, max);
      var r := VmStep(env, ld, s, gc);
      [gc] + if r.Next? then Choices(env, ld, r.s, max, n - 1) else []
  }

  // It is one of the runs that collect at given allocations.
  lemma {:induction false} RunForChooses(env: Env, ld: Loaded, s: Vm, max: nat, n: nat)
    ensures RunFor(env, ld, s, max, n) == VmRun(env, ld, s, Choices(env, ld, s, max, n))
    ensures RunFor(env, ld, s, max, n).Next? ==> |Choices(env, ld, s, max, n)| == n
    decreases n
  {
    hide VmStep, Trigger;
    if n > 0 {
      var gc := Trigger(s.core.mem, max);
      var r := VmStep(env, ld, s, gc);
      if r.Next? {
        RunForChooses(env, ld, r.s, max, n - 1);
        assert ([gc] + Choices(env, ld, r.s, max, n - 1))[1..] == Choices(env, ld, r.s, max, n - 1);
      }
    }
  }

  // Step k of that run collects before an allocation exactly when what is in use by then is more
  // than seven tenths of the maximum.
  lemma {:induction false} RunForCollects(env: Env, ld: Loaded, s: Vm, max: nat, n: nat, k: nat)
    requires k < |Choices(env, ld, s, max, n)|
    ensures var gcs := Choices(env, ld, s, max, n);
            var t := VmRun(env, ld, s, gcs[..k]);
            t.Next? && (gcs[k] <==> Used(t.s.core.mem.active) as real > 0.7 * (max as real))
    decreases n
  {
    var gc := Trigger(s.core.mem, max);
    SevenTenths(s.core.mem, max);
    hide VmStep, Trigger, Used;
    var gcs, r := Choices(env, ld, s, max, n), VmStep(env, ld, s, gc);
    assert gcs[0] == gc;
    if k == 0 {
      assert gcs[..0] == [];
    } else {
      var rest := Choices(env, ld, r.s, max, n - 1);
      assert gcs == [gc] + rest;
      RunForCollects(env, ld, r.s, max, n - 1, k - 1);
      assert gcs[..k][0] == gc && gcs[..k][1..] == rest[..k - 1];
    }
  }

  // The zero-initialised machine of src/main.cpp, with ip at the code and jmpFlag 2.
  function Initial(ip: nat): Vm {
    Vm(ip, Core(ZeroWords(256), FLAG_GREATER, [], NO_HEAP), ZeroWords(4096), 0, 0)
  }
}
