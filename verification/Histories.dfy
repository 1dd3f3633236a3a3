// The heap operations a program makes: what a run does to the heap is a run of allocations, stores
// and collections, so what is proved of these holds under every loaded image.
module Histories {
  import opened Words
  import opened Wrappers
  import opened Bytes
  import opened Isa
  import opened Assembly
  import opened Space
  import opened Collector
  import opened HeapOps
  import opened Memory
  import opened Pictures
  import opened Tracing
  import opened Machine
  import opened VmSpec
  import opened Reference
  import opened Simulation
  import opened TwinStates
  import opened Transparency
  import opened Loading
  import opened Loader
  import opened Pointers

  // ---------- one instruction ----------

  function RootWords(s: Ref): seq<Word>
    requires s.sp <= STACK_SIZE
  {
    s.core.reg + CellWords(s.stack[..s.sp])
  }

  function NewOps(c: Core, length: int, rty: Byte): seq<HeapOp> {
    if length < 0 then [] else [OpNew(length, DecodeInt(c.reg[rty]) % TWO32)]
  }

  // A collection that is due, then the array.
  function ArrayOps(env: Env, s: Ref, rlen: Byte, rty: Byte, gc: bool): seq<HeapOp> {
    var length := DecodeInt(s.core.reg[rlen]);
    if !gc then NewOps(s.core, length, rty)
    else if s.sp > STACK_SIZE || !RefGc(env, s).Next? then []
    else [OpCollect(Marked(RootWords(s), s.core.mem.active))] + NewOps(RefGc(env, s).s.core, length, rty)
  }

  function ArrayHeaps(env: Env, s: Ref, rd: Byte, rlen: Byte, rty: Byte, gc: bool): seq<Mem> {
    var r := RefArray(env, rd, rlen, rty, s, gc);
    if !r.Next? then [] else (if gc && RefGc(env, s).Next? then [RefGc(env, s).s.core.mem] else []) + [r.s.core.mem]
  }

  function WriteOps(c: Core, rs: Byte, rarr: Byte, ridx: Byte): seq<HeapOp> {
    var r := Locate(c.mem, c.reg[rarr], c.reg[ridx]);
    if r.Next? then [OpStore(r.s.0, r.s.1, c.reg[rs])] else []
  }

  // What one instruction does to the heap, and the heap after each operation.
  function StepOps(env: Env, c: Code, s: Ref, gc: bool): seq<HeapOp> {
    if s.pc >= |c.instrs| then []
    else
      match c.instrs[s.pc]
      case Op(m, ra, rb, rc) =>
        if m == Arr then ArrayOps(env, s, rb, rc, gc) else if m == ArrIns then WriteOps(s.core, ra, rb, rc) else []
      case _ => []
  }

  function StepHeaps(env: Env, c: Code, s: Ref, gc: bool): seq<Mem> {
    var r := RefStep(env, c, s, gc);
    if s.pc >= |c.instrs| || !r.Next? then []
    else
      match c.instrs[s.pc]
      case Op(m, ra, rb, rc) =>
        if m == Arr then ArrayHeaps(env, s, ra, rb, rc, gc) else if m == ArrIns then [r.s.core.mem] else []
      case _ => []
  }

  // ---------- whole runs ----------

  function RunOps(env: Env, c: Code, s: Ref, gcs: seq<bool>): seq<HeapOp>
    decreases |gcs|
  {
    if gcs == [] then []
    else
      var r := RefStep(env, c, s, gcs[0]);
      StepOps(env, c, s, gcs[0]) + if r.Next? then RunOps(env, c, r.s, gcs[1..]) else []
  }

  function RunHeaps(env: Env, c: Code, s: Ref, gcs: seq<bool>): seq<Mem>
    decreases |gcs|
  {
    if gcs == [] then []
    else
      var r := RefStep(env, c, s, gcs[0]);
      StepHeaps(env, c, s, gcs[0]) + if r.Next? then RunHeaps(env, c, r.s, gcs[1..]) else []
  }

  // From one heap to another by these operations.
  ghost predicate Leads(env: Env, m: Mem, ops: seq<HeapOp>, ms: seq<Mem>, m': Mem) {
    HeapRun(env.malloc, env.stale, m, ops, ms) && HeapAt(m, ms, |ms|) == m'
  }

  lemma {:induction false} LeadsOne(env: Env, m: Mem, op: HeapOp, m': Mem)
    requires ApplyOp(env.malloc, env.stale, m, op) == Some(m')
    ensures Leads(env, m, [op], [m'], m')
  {
    hide ApplyOp;
    assert HeapAt(m, [m'], 0) == m;
  }

  lemma {:induction false} LeadsNowhere(env: Env, m: Mem)
    ensures Leads(env, m, [], [], m)
  {
  }

  lemma {:induction false} LeadsOn(env: Env, m: Mem, ops: seq<HeapOp>, ms: seq<Mem>, m': Mem, ops': seq<HeapOp>,
                                   ms': seq<Mem>, m'': Mem)
    requires Leads(env, m, ops, ms, m') && Leads(env, m', ops', ms', m'')
    ensures Leads(env, m, ops + ops', ms + ms', m'')
  {
    hide HeapRun, HeapAt;
    RunsJoin(env.malloc, env.stale, m, ops, ms, ops', ms');
  }

  lemma {:induction false} NewLeads(env: Env, c: Core, rd: Byte, length: int, rty: Byte)
    requires CoreNewArray(env, rd, length, rty, c).Next?
    ensures var m' := CoreNewArray(env, rd, length, rty, c).s.mem; Leads(env, c.mem, NewOps(c, length, rty), [m'], m')
  {
    hide NewArray, ArraySize, Leads;
    LeadsOne(env, c.mem, OpNew(length, DecodeInt(c.reg[rty]) % TWO32), CoreNewArray(env, rd, length, rty, c).s.mem);
  }

  lemma {:induction false} GcLeads(env: Env, s: Ref)
    requires RefGc(env, s).Next?
    ensures s.sp <= STACK_SIZE
    ensures var m' := RefGc(env, s).s.core.mem;
            Leads(env, s.core.mem, [OpCollect(Marked(RootWords(s), s.core.mem.active))], [m'], m')
  {
    hide Collect, Leads, Marked, Overruns;
    LeadsOne(env, s.core.mem, OpCollect(Marked(RootWords(s), s.core.mem.active)), RefGc(env, s).s.core.mem);
  }

  lemma {:induction false} ArrayLeads(env: Env, s: Ref, rd: Byte, rlen: Byte, rty: Byte, gc: bool)
    requires RefArray(env, rd, rlen, rty, s, gc).Next?
    ensures Leads(env, s.core.mem, ArrayOps(env, s, rlen, rty, gc), ArrayHeaps(env, s, rd, rlen, rty, gc),
                  RefArray(env, rd, rlen, rty, s, gc).s.core.mem)
  {
    hide Leads, RefGc, CoreNewArray, NewOps, Marked;
    var length := DecodeInt(s.core.reg[rlen]);
    if gc {
      GcLeads(env, s);
      var t := RefGc(env, s).s;
      NewLeads(env, t.core, rd, length, rty);
      LeadsOn(env, s.core.mem, [OpCollect(Marked(RootWords(s), s.core.mem.active))], [t.core.mem], t.core.mem,
              NewOps(t.core, length, rty), [RefArray(env, rd, rlen, rty, s, gc).s.core.mem],
              RefArray(env, rd, rlen, rty, s, gc).s.core.mem);
    } else {
      NewLeads(env, s.core, rd, length, rty);
      assert [] + [RefArray(env, rd, rlen, rty, s, gc).s.core.mem] == [RefArray(env, rd, rlen, rty, s, gc).s.core.mem];
    }
  }

  lemma {:induction false} WriteLeads(env: Env, c: Core, rs: Byte, rarr: Byte, ridx: Byte)
    requires CoreWrite(rs, rarr, ridx, c).Next?
    ensures var m' := CoreWrite(rs, rarr, ridx, c).s.mem; Leads(env, c.mem, WriteOps(c, rs, rarr, ridx), [m'], m')
  {
    LocatedObject(c.mem, c.reg[rarr], c.reg[ridx]);
    hide Locate, Leads, Reachable, StoreWord;
    var (a, j) := Locate(c.mem, c.reg[rarr], c.reg[ridx]).s;
    LeadsOne(env, c.mem, OpStore(a, j, c.reg[rs]), CoreWrite(rs, rarr, ridx, c).s.mem);
  }

  // The position in the code plays no part in an allocation.
  lemma {:induction false} ArrayAtAnyPc(env: Env, s: Ref, pc: nat, rd: Byte, rlen: Byte, rty: Byte, gc: bool)
    ensures var t := s.(pc := pc);
            var r, q := RefArray(env, rd, rlen, rty, s, gc), RefArray(env, rd, rlen, rty, t, gc);
            (r.Next? <==> q.Next?) && (r.Next? ==> q.s.core.mem == r.s.core.mem) &&
            ArrayOps(env, t, rlen, rty, gc) == ArrayOps(env, s, rlen, rty, gc) &&
            ArrayHeaps(env, t, rd, rlen, rty, gc) == ArrayHeaps(env, s, rd, rlen, rty, gc)
  {
    hide Gc, CoreNewArray, Marked;
  }

  lemma {:induction false} StepLeads(env: Env, c: Code, s: Ref, gc: bool)
    requires RefStep(env, c, s, gc).Next?
    ensures Leads(env, s.core.mem, StepOps(env, c, s, gc), StepHeaps(env, c, s, gc), RefStep(env, c, s, gc).s.core.mem)
  {
    hide Leads, CoreWrite, RefArray, ArrayOps, ArrayHeaps, WriteOps, Locate, ArithWords, CompareWords, Guarded,
      CoreRead;
    LeadsNowhere(env, s.core.mem);
    match c.instrs[s.pc]
    case Op(m, ra, rb, rc) =>
      if m == ArrIns {
        WriteLeads(env, s.core, ra, rb, rc);
      } else if m == Arr {
        ArrayAtAnyPc(env, s, s.pc + 1, ra, rb, rc, gc);
        ArrayLeads(env, s.(pc := s.pc + 1), ra, rb, rc, gc);
      } else {
        SameHeap(env, m, ra, rb, rc, s.(pc := s.pc + 1), gc);
      }
    case _ =>
  }

  lemma {:induction false} SameHeap(env: Env, m: Mnemonic, ra: Byte, rb: Byte, rc: Byte, s: Ref, gc: bool)
    requires m != Arr && m != ArrIns && RefOp(env, m, ra, rb, rc, s, gc).Next?
    ensures RefOp(env, m, ra, rb, rc, s, gc).s.core.mem == s.core.mem
  {
    hide CoreWrite, RefArray, Locate, ArithWords, CompareWords, Guarded;
  }

  // Every run of a program is, to the heap, a run of allocations, stores and collections.
  lemma {:induction false} RunIsHistory(env: Env, c: Code, s: Ref, gcs: seq<bool>)
    requires RefRun(env, c, s, gcs).Next?
    ensures Leads(env, s.core.mem, RunOps(env, c, s, gcs), RunHeaps(env, c, s, gcs), RefRun(env, c, s, gcs).s.core.mem)
    decreases |gcs|
  {
    hide Leads, RefStep, StepOps, StepHeaps;
    if gcs == [] {
      LeadsNowhere(env, s.core.mem);
    } else {
      var t := RefStep(env, c, s, gcs[0]).s;
      StepLeads(env, c, s, gcs[0]);
      RunIsHistory(env, c, t, gcs[1..]);
      LeadsOn(env, s.core.mem, StepOps(env, c, s, gcs[0]), StepHeaps(env, c, s, gcs[0]), t.core.mem,
              RunOps(env, c, t, gcs[1..]), RunHeaps(env, c, t, gcs[1..]), RefRun(env, c, s, gcs).s.core.mem);
    }
  }

  // ---------- memory under a loaded image ----------

  // Every array was made with sixteen bytes to spare in its chunk.
  ghost predicate Roomy(env: Env, c: Code, gcs: seq<bool>) {
    |RunOps(env, c, StartRef(), gcs)| == |RunHeaps(env, c, StartRef(), gcs)| &&
    forall j :: 0 <= j < |RunOps(env, c, StartRef(), gcs)| && RunOps(env, c, StartRef(), gcs)[j].OpNew? ==>
      Spare(RunHeaps(env, c, StartRef(), gcs)[j])
  }

  // The memory after the run's stores, from any memory.
  function RunRam(ram: Ram, env: Env, c: Code, gcs: seq<bool>): Ram
    requires |RunOps(env, c, StartRef(), gcs)| == |RunHeaps(env, c, StartRef(), gcs)|
  {
    var ops, ms := RunOps(env, c, StartRef(), gcs), RunHeaps(env, c, StartRef(), gcs);
    RamAt(ram, env.malloc, env.stale, NO_HEAP, ops, ms, |ms|)
  }

  // In every state of every run of a loaded image, the heap of the machine is what the source's
  // stores have left in memory, if every array was made with room to spare.
  lemma {:induction false} VmHeapPictured(ram: Ram, env: Env, c: Code, ld: Loaded, v: Vm, gcs: seq<bool>)
    requires LoadedFrom(c, ld) && Rel(c, StartRef(), v) && RefRun(env, c, StartRef(), gcs).Next? && Roomy(env, c, gcs)
    ensures VmRun(env, ld, v, gcs).Next?
    ensures Pictured(RunRam(ram, env, c, gcs), env.stale, VmRun(env, ld, v, gcs).s.core.mem)
  {
    EmptyHeapOk();
    NoHeapPictured(ram, env.stale);
    RunIsHistory(env, c, StartRef(), gcs);
    SimRun(env, c, ld, StartRef(), v, gcs);
    hide RefRun, VmRun, LoadedFrom, CellsRel, FramesRel, HeapOk, Addr, RunOps, RunHeaps, Pictured, Owned, Spare, RamAt;
    var ops, ms := RunOps(env, c, StartRef(), gcs), RunHeaps(env, c, StartRef(), gcs);
    HeapIsPictured(ram, env.malloc, env.stale, NO_HEAP, ops, ms, |ms|);
  }

  // ---------- what collections mark ----------

  // In untagged memory a tame run never traces an array: wherever it collects, exactly the objects
  // that registers and live stack name are kept.
  lemma {:induction false} TameRunsTraceNothing(env: Env, c: Code, gcs: seq<bool>)
    requires TameAlong(env, c, StartRef(), gcs) && Untagged(env.stale) && RefRun(env, c, StartRef(), gcs).Next?
    ensures var s := RefRun(env, c, StartRef(), gcs).s;
            NoneTraced(s.core.mem) &&
            (s.sp <= STACK_SIZE ==> Marked(RootWords(s), s.core.mem.active) == Named(RootWords(s)))
  {
    EmptyHeapOk();
    NoHeapTracesNone();
    RunCalm(env, c, StartRef(), gcs);
    hide RefRun, Marked, Named, NoneTraced, TightLoose;
    var s := RefRun(env, c, StartRef(), gcs).s;
    if s.sp <= STACK_SIZE {
      NoneTracedMarks(s.core.mem, RootWords(s));
    }
  }

  lemma {:induction false} RunCalm(env: Env, c: Code, s: Ref, gcs: seq<bool>)
    requires HeapOk(s.core.mem) && Calm(s.core.mem) && Untagged(env.stale) && TameAlong(env, c, s, gcs)
    requires RefRun(env, c, s, gcs).Next?
    ensures Calm(RefRun(env, c, s, gcs).s.core.mem)
    decreases |gcs|
  {
    hide HeapOk, Calm, Untagged, RefStep, Tame;
    if gcs != [] {
      StepCalm(env, c, s, gcs[0]);
      StepKeepsHeap(env, c, s, gcs[0]);
      RunCalm(env, c, RefStep(env, c, s, gcs[0]).s, gcs[1..]);
    }
  }
}
