// No program can tell which allocations collect, or at which addresses its objects lie: runs that
// collect at different allocations, on different allocators, stay twins.
//
// It is for tame programs and for memory handed out untagged: otherwise stale bytes decide what is
// traced.
module Transparency {
  import opened Words
  import opened Wrappers
  import opened Bytes
  import opened Isa
  import opened Literals
  import opened Assembly
  import opened Space
  import opened Collector
  import opened HeapOps
  import opened Tracing
  import opened Machine
  import opened VmSpec
  import opened Reference
  import opened Simulation
  import opened TwinStates

  // ---------- tame steps trace nothing ----------

  lemma {:induction false} GcCalm(env: Env, s: Ref)
    requires HeapOk(s.core.mem) && Calm(s.core.mem) && RefGc(env, s).Next?
    ensures HeapOk(RefGc(env, s).s.core.mem) && Calm(RefGc(env, s).s.core.mem)
  {
    var m, marked := s.core.mem, Marked(s.core.reg + CellWords(s.stack[..s.sp]), s.core.mem.active);
    hide HeapOk, TightLoose, NoneTraced, Collect, Marked, Overruns;
    CollectTracesNone(env.malloc, m, marked);
    CollectKeeps(env.malloc, m, marked);
  }

  lemma {:induction false} NewCalm(env: Env, c: Core, rd: Byte, length: int, rty: Byte)
    requires HeapOk(c.mem) && Calm(c.mem) && Untagged(env.stale) && CoreNewArray(env, rd, length, rty, c).Next?
    ensures Calm(CoreNewArray(env, rd, length, rty, c).s.mem)
  {
    hide HeapOk, TightLoose, NoneTraced, NewArray, ArraySize, Untagged;
    var n := DecodeInt(c.reg[rty]) % TWO32;
    var (m, a) := NewArray(env.malloc, env.stale, c.mem, length, n).value;
    TightAfterNew(env.malloc, env.stale, c.mem, length, n, m, a);
    NewTracesNone(env.malloc, env.stale, c.mem, length, n, m, a);
  }

  lemma {:induction false} ArrayCalm(env: Env, s: Ref, rd: Byte, rlen: Byte, rty: Byte, gc: bool)
    requires HeapOk(s.core.mem) && Calm(s.core.mem) && Untagged(env.stale) && RefArray(env, rd, rlen, rty, s, gc).Next?
    ensures Calm(RefArray(env, rd, rlen, rty, s, gc).s.core.mem)
  {
    hide HeapOk, Calm, CoreNewArray, RefGc, Untagged;
    if gc {
      GcCalm(env, s);
    }
    var s' := if gc then RefGc(env, s).s else s;
    NewCalm(env, s'.core, rd, DecodeInt(s.core.reg[rlen]), rty);
  }

  lemma {:induction false} WriteCalm(s: Ref, rs: Byte, rarr: Byte, ridx: Byte)
    requires Calm(s.core.mem) && TameAccess(s.core.mem, s.core.reg[rarr], s.core.reg[ridx])
    requires CoreWrite(rs, rarr, ridx, s.core).Next?
    ensures Calm(CoreWrite(rs, rarr, ridx, s.core).s.mem)
  {
    var m, arr, idx := s.core.mem, s.core.reg[rarr], s.core.reg[ridx];
    LocatedObject(m, arr, idx);
    LocateInside(m, arr, idx);
    hide TightLoose, NoneTraced, Locate, HeaderOf, DecodeInt, StoreWord, FreeBehind;
    var (a, j) := Locate(m, arr, idx).s;
    TightAfterStore(m, a, j, s.core.reg[rs]);
    StoreTracesNone(m, a, j, s.core.reg[rs]);
  }

  // In untagged memory a tame step leaves nothing traced.
  lemma {:induction false} StepCalm(env: Env, c: Code, s: Ref, gc: bool)
    requires HeapOk(s.core.mem) && Calm(s.core.mem) && Untagged(env.stale) && Tame(c, s) && RefStep(env, c, s, gc).Next?
    ensures Calm(RefStep(env, c, s, gc).s.core.mem)
  {
    hide HeapOk, Calm, CoreWrite, RefArray, TameAccess, Locate, ArithWords, CompareWords, Guarded, Untagged, IsPointer,
      IsInt, ReadWord;
    match c.instrs[s.pc]
    case Op(m, ra, rb, rc) =>
      if m == ArrIns {
        WriteCalm(s, ra, rb, rc);
      } else if m == Arr {
        ArrayCalm(env, s.(pc := s.pc + 1), ra, rb, rc, gc);
      }
    case _ =>
  }

  // The same double operations and memory handed out untagged; allocators may differ.
  ghost predicate Alike(env: Env, env': Env) {
    env.fpu == env'.fpu && Untagged(env.stale) && Untagged(env'.stale)
  }

  // Twins in which nothing is traced.
  ghost predicate CalmTwins(s: Ref, t: Ref) {
    Twins(s, t) && Calm(s.core.mem) && Calm(t.core.mem)
  }

  lemma {:induction false} TwinsHeaps(s: Ref, t: Ref)
    requires Twins(s, t)
    ensures HeapOk(s.core.mem) && HeapOk(t.core.mem)
  {
    var rho :| TwinBy(rho, s, t);
    TwinsQuiet(rho, s, t);
    QuietSpace(s.core.mem);
    QuietSpace(t.core.mem);
  }

  lemma {:induction false} TameBoth(c: Code, s: Ref, t: Ref)
    requires Twins(s, t) && Tame(c, s)
    ensures Tame(c, t)
  {
    hide TwinBy, TameInstr;
    var rho :| TwinBy(rho, s, t);
    SameSps(rho, s, t);
    if s.pc < |c.instrs| {
      TameInstrBoth(c, c.instrs[s.pc], rho, s, t);
    }
  }

  lemma {:induction false} TameInstrBoth(c: Code, i: Instr<nat>, rho: map<nat, nat>, s: Ref, t: Ref)
    requires TwinBy(rho, s, t) && TameInstr(c, i, s)
    ensures TameInstr(c, i, t)
  {
    hide TwinBy, TameOp, TameFrame, IsPointer;
    SameSps(rho, s, t);
    match i
    case Op(m, ra, rb, rc) => TameOpBoth(m, ra, rb, rc, rho, s, t);
    case Call(idx) =>
      if idx < |c.entries| && s.sp + 2 <= STACK_SIZE {
        TameFrameBoth(rho, s, t, c.entries[idx].frameSize % 0x1_0000);
      }
    case _ =>
  }

  lemma {:induction false} TameFrameBoth(rho: map<nat, nat>, s: Ref, t: Ref, n: nat)
    requires TwinBy(rho, s, t) && TameFrame(s, n)
    ensures TameFrame(t, n)
  {
    hide IsPointer, TwinBy;
    SameSps(rho, s, t);
    forall k | t.sp + 2 <= k < t.sp + 2 + n ensures !IsPointer(CellWord(t.stack[k])) {
      LooseAt(rho, s, t, k);
    }
  }

  lemma {:induction false} SameSps(rho: map<nat, nat>, s: Ref, t: Ref)
    requires TwinBy(rho, s, t)
    ensures s.pc == t.pc && s.sp == t.sp && s.sp <= STACK_SIZE
  {
    hide CoreTwin, StackTwin, StackLoose, FramesOk;
  }

  lemma {:induction false} LooseAt(rho: map<nat, nat>, s: Ref, t: Ref, k: nat)
    requires TwinBy(rho, s, t) && k < 4096
    ensures IsPointer(CellWord(s.stack[k])) == IsPointer(CellWord(t.stack[k]))
  {
    hide CoreTwin, StackTwin, FramesOk, IsPointer;
    assert CellLoose(s.stack[k], t.stack[k]);
  }

  lemma {:induction false} TameOpBoth(m: Mnemonic, ra: Byte, rb: Byte, rc: Byte, rho: map<nat, nat>, s: Ref, t: Ref)
    requires TwinBy(rho, s, t) && TameOp(m, ra, rb, rc, s)
    ensures TameOp(m, ra, rb, rc, t)
  {
    assert CoreTwin(rho, s.core, t.core);
    SameSps(rho, s, t);
    if m == Read && Slot(ra, rb) < 4096 {
      LooseAt(rho, s, t, Slot(ra, rb));
    }
    hide CoreTwin, TwinBy, IsInt, IsPointer, TameAccess;
    OperandTwin(rho, s.core, t.core, ra);
    OperandTwin(rho, s.core, t.core, rb);
    OperandTwin(rho, s.core, t.core, rc);
    IntNoPointer(s.core.reg[rb]);
    IntNoPointer(s.core.reg[rc]);
    if m == ArrIns || m == ArrRead {
      TameAccessBoth(rho, s.core, t.core, rb, rc);
    }
  }

  lemma {:induction false} TameAccessBoth(rho: map<nat, nat>, c: Core, d: Core, rarr: Byte, ridx: Byte)
    requires CoreTwin(rho, c, d) && IsPointer(c.reg[rarr]) && IsInt(c.reg[ridx])
    requires TameAccess(c.mem, c.reg[rarr], c.reg[ridx])
    ensures TameAccess(d.mem, d.reg[rarr], d.reg[ridx])
  {
    hide QuietHeap, SpaceOk, IsInt, IsPointer, HeapTwin, RegsTwin, HeaderOf, DecodeInt, WordTwin;
    RegTwin(rho, c, d, rarr);
    OperandTwin(rho, c, d, ridx);
    IntNoPointer(c.reg[ridx]);
    QuietSpace(d.mem);
    TwinHeader(rho, c.mem.active, d.mem.active, c.reg[rarr], d.reg[rarr]);
    HeapTwinAt(rho, c.mem.active, d.mem.active, HeaderOf(c.reg[rarr]));
  }

  // ---------- whole runs ----------

  // Every state that the run with these collections passes through is tame.
  ghost predicate TameAlong(env: Env, c: Code, s: Ref, gcs: seq<bool>)
    decreases |gcs|
  {
    gcs != [] ==>
      Tame(c, s) &&
      var r := RefStep(env, c, s, gcs[0]);
      r.Next? ==> TameAlong(env, c, r.s, gcs[1..])
  }

  function Never(n: nat): (r: seq<bool>)
    ensures |r| == n && forall k :: 0 <= k < n ==> !r[k]
  {
    seq(n, _ => false)
  }

  // Two runs that collect at different allocations, on allocators that hand out different
  // addresses, differ in nothing a program can see: same outcome, same output, same flag, same
  // position, same frames; live words equal up to the moved addresses.
  lemma {:induction false} CollectorTransparent(env: Env, env': Env, c: Code, s: Ref, t: Ref, gs: seq<bool>,
                                                hs: seq<bool>)
    requires CalmTwins(s, t) && |gs| == |hs| && TameAlong(env, c, s, gs) && Alike(env, env')
    ensures SameOutcome(RefRun(env, c, s, gs), RefRun(env', c, t, hs))
    decreases |gs|
  {
    hide RefStep, Twins, Tame, Untagged, Calm, BothCalm, HeapOk;
    if gs != [] {
      CalmIsCalm(s, t);
      StepTwin(env, env', c, s, t, gs[0], hs[0]);
      TwinsHeaps(s, t);
      TameBoth(c, s, t);
      var r, q := RefStep(env, c, s, gs[0]), RefStep(env', c, t, hs[0]);
      if r.Next? && q.Next? {
        StepCalm(env, c, s, gs[0]);
        StepCalm(env', c, t, hs[0]);
        CollectorTransparent(env, env', c, r.s, q.s, gs[1..], hs[1..]);
      }
    }
  }

  lemma {:induction false} CalmIsCalm(s: Ref, t: Ref)
    requires CalmTwins(s, t)
    ensures BothCalm(s, t)
  {
    hide Twins, TightLoose;
  }

  // A tame run keeps being its own twin, whatever memory held.
  lemma {:induction false} SelfTwin(env: Env, c: Code, s: Ref, gcs: seq<bool>)
    requires Twins(s, s) && TameAlong(env, c, s, gcs) && RefRun(env, c, s, gcs).Next?
    ensures Twins(RefRun(env, c, s, gcs).s, RefRun(env, c, s, gcs).s)
    decreases |gcs|
  {
    hide RefStep, Twins, Tame, BothCalm, SameOutcome;
    if gcs != [] {
      StepTwin(env, env, c, s, s, gcs[0], gcs[0]);
      SelfTwin(env, c, RefStep(env, c, s, gcs[0]).s, gcs[1..]);
    }
  }

  // Shorter runs of a tame run are tame, and end as the run did if that is when it stopped.
  lemma {:induction false} TamePrefix(env: Env, c: Code, s: Ref, gs: seq<bool>, n: nat)
    requires TameAlong(env, c, s, gs) && n <= |gs|
    ensures TameAlong(env, c, s, gs[..n])
    ensures RefRun(env, c, s, gs[..n]).Next? || RefRun(env, c, s, gs[..n]) == RefRun(env, c, s, gs)
    decreases n
  {
    hide RefStep, Tame;
    if n > 0 {
      var r := RefStep(env, c, s, gs[0]);
      assert gs[..n][1..] == gs[1..][..n - 1];
      if r.Next? {
        TamePrefix(env, c, r.s, gs[1..], n - 1);
      }
    }
  }
}
