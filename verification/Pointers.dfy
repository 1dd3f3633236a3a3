// Consequences for whole runs: the loaded machine cannot tell whether it collects, live
// pointers are live, pointers are never forged, and the heap invariant holds throughout.
module Pointers {
  import opened Words
  import opened Wrappers
  import opened Bytes
  import opened Isa
  import opened Assembly
  import opened Space
  import opened Collector
  import opened HeapOps
  import opened Machine
  import opened VmSpec
  import opened Reference
  import opened Simulation
  import opened Tracing
  import opened TwinStates
  import opened Transparency
  import opened Loading
  import opened Loader

  // ---------- the collector under the loaded machine ----------

  lemma {:induction false} StartTwins()
    ensures CalmTwins(StartRef(), StartRef())
  {
    EmptyHeapOk();
    SmallWordsAreDoubles(0);
    hide HeapOk;
    assert TwinBy(map[], StartRef(), StartRef());
  }

  // On an assembled image, a tame program behaves the same whatever allocations collect first and
  // wherever the allocator puts chunks.
  lemma {:induction false} VmCollectorTransparent(env: Env, env': Env, c: Code, ld: Loaded, v: Vm, gs: seq<bool>,
                                                  hs: seq<bool>)
    requires LoadedFrom(c, ld) && Rel(c, StartRef(), v) && |gs| == |hs| && TameAlong(env, c, StartRef(), gs)
    requires Alike(env, env') && !RefRun(env, c, StartRef(), gs).Undefined?
    ensures var a, b := VmRun(env, ld, v, gs), VmRun(env', ld, v, hs);
            a == Throw(BadAlloc) || b == Throw(BadAlloc) ||
            match a
            case Next(x) => b.Next? && b.s.ip == x.ip && b.s.sp == x.sp && b.s.fp == x.fp &&
                            b.s.core.flag == x.core.flag && b.s.core.out == x.core.out
            case Halt(x) => b.Halt? && b.s.core.out == x.core.out
            case Throw(e) => b == Throw(e)
            case Undefined => false
  {
    StartTwins();
    CollectorTransparent(env, env', c, StartRef(), StartRef(), gs, hs);
    SimRun(env, c, ld, StartRef(), v, gs);
    SimRun(env', c, ld, StartRef(), v, hs);
    hide RefRun, VmRun, LoadedFrom, CellsRel, FramesRel, QuietHeap, HeapTwin, RegsTwin, StackTwin, StackLoose,
      TameAlong, FramesOk, Addr, Untagged;
  }

  // ---------- live pointers ----------

  ghost predicate LiveHandles(s: Ref) {
    forall i: nat :: i < 256 + s.sp && s.sp <= STACK_SIZE && IsPointer(RootWord(s, i)) ==>
      HeaderOf(RootWord(s, i)) in s.core.mem.active.mem && RootWord(s, i) == PointerTo(HeaderOf(RootWord(s, i)))
  }

  lemma {:induction false} TwinsLive(s: Ref, t: Ref)
    requires Twins(s, t)
    ensures LiveHandles(t)
  {
    var rho :| TwinBy(rho, s, t);
    TwinsQuiet(rho, s, t);
    QuietSpace(t.core.mem);
    hide QuietHeap, HeapOk, SpaceOk, IsPointer, FramesOk, RegsTwin, StackTwin, HeaderOf;
    forall i: nat | i < 256 + s.sp && IsPointer(RootWord(t, i))
      ensures HeaderOf(RootWord(t, i)) in t.core.mem.active.mem && RootWord(t, i) == PointerTo(HeaderOf(RootWord(t, i)))
    {
      RootTwin(rho, s, t, i);
      var w, v := RootWord(s, i), RootWord(t, i);
      TwinTags(rho, w, v);
      TwinHeader(rho, s.core.mem.active, t.core.mem.active, w, v);
      HeapTwinAt(rho, s.core.mem.active, t.core.mem.active, HeaderOf(w));
    }
  }

  // In every state of a run that stays tame, with collections at any allocations, every
  // pointer-tagged register and stack slot below sp is the handle of an object in the active heap.
  lemma {:induction false} PointersAreLive(env: Env, c: Code, gcs: seq<bool>)
    requires TameAlong(env, c, StartRef(), gcs) && RefRun(env, c, StartRef(), gcs).Next?
    ensures LiveHandles(RefRun(env, c, StartRef(), gcs).s)
  {
    StartTwins();
    SelfTwin(env, c, StartRef(), gcs);
    hide RefRun, Twins;
    TwinsLive(RefRun(env, c, StartRef(), gcs).s, RefRun(env, c, StartRef(), gcs).s);
  }

  // The registers and the live stack of the loaded machine.
  function LiveWords(v: Vm): seq<Word> {
    v.core.reg + v.stack[..if v.sp <= STACK_SIZE then v.sp else STACK_SIZE]
  }

  ghost predicate LiveWord(w: Word, m: Mem) {
    IsPointer(w) ==> HeaderOf(w) in m.active.mem && w == PointerTo(HeaderOf(w))
  }

  lemma {:induction false} RelLive(c: Code, s: Ref, v: Vm, i: nat)
    requires Rel(c, s, v) && LiveHandles(s) && s.sp <= STACK_SIZE && i < |LiveWords(v)|
    ensures LiveWord(LiveWords(v)[i], v.core.mem)
  {
    hide FramesRel, IsPointer, HeaderOf, Addr;
    if i < 256 {
      assert LiveWords(v)[i] == RootWord(s, i);
    } else {
      assert CellRel(s.stack[i - 256], v.stack[i - 256]);
      SavedIsPlain(s.stack[i - 256], v.stack[i - 256]);
      assert LiveWords(v)[i] == v.stack[i - 256] && RootWord(s, i) == CellWord(s.stack[i - 256]);
    }
  }

  lemma {:induction false} SavedIsPlain(cell: Cell, w: Word)
    requires CellRel(cell, w)
    ensures IsPointer(w) ==> w == CellWord(cell)
  {
  }

  // The same for the loaded machine, saved words included.
  lemma {:induction false} VmPointersAreLive(env: Env, c: Code, ld: Loaded, v: Vm, gcs: seq<bool>)
    requires LoadedFrom(c, ld) && Rel(c, StartRef(), v)
    requires TameAlong(env, c, StartRef(), gcs) && RefRun(env, c, StartRef(), gcs).Next?
    ensures VmRun(env, ld, v, gcs).Next?
    ensures var x := VmRun(env, ld, v, gcs).s;
            x.sp <= STACK_SIZE && forall i :: 0 <= i < |LiveWords(x)| ==> LiveWord(LiveWords(x)[i], x.core.mem)
  {
    StartTwins();
    SelfTwin(env, c, StartRef(), gcs);
    PointersAreLive(env, c, gcs);
    SimRun(env, c, ld, StartRef(), v, gcs);
    hide RefRun, VmRun, LoadedFrom, LiveHandles, LiveWords, LiveWord;
    var s, x := RefRun(env, c, StartRef(), gcs).s, VmRun(env, ld, v, gcs).s;
    TwinsFit(s, s);
    SameSp(c, s, x);
    hide Rel, Twins;
    forall i | 0 <= i < |LiveWords(x)| ensures LiveWord(LiveWords(x)[i], x.core.mem) {
      RelLive(c, s, x, i);
    }
  }

  lemma {:induction false} TwinsFit(s: Ref, t: Ref)
    requires Twins(s, t)
    ensures s.sp <= STACK_SIZE
  {
  }

  lemma {:induction false} SameSp(c: Code, s: Ref, v: Vm)
    requires Rel(c, s, v)
    ensures v.sp == s.sp
  {
  }

  // ---------- the heap invariant along a run ----------

  lemma {:induction false} ArrayKeeps(env: Env, s: Ref, rd: Byte, rlen: Byte, rty: Byte, gc: bool)
    requires HeapOk(s.core.mem) && RefArray(env, rd, rlen, rty, s, gc).Next?
    ensures HeapOk(RefArray(env, rd, rlen, rty, s, gc).s.core.mem)
  {
    hide HeapOk, Gc, CoreNewArray, Compacted;
    if gc {
      GcKeeps(env, s.core.mem, s.core.reg + CellWords(s.stack[..s.sp]));
    }
    var s' := if gc then RefGc(env, s).s else s;
    NewArrayStepKeeps(env, s'.core, rd, DecodeInt(s.core.reg[rlen]), rty);
  }

  // Every instruction keeps the heap invariant.
  lemma {:induction false} StepKeepsHeap(env: Env, c: Code, s: Ref, gc: bool)
    requires HeapOk(s.core.mem) && RefStep(env, c, s, gc).Next?
    ensures HeapOk(RefStep(env, c, s, gc).s.core.mem)
  {
    hide HeapOk, CoreWrite, RefArray, Locate, ArithWords, CompareWords, Guarded, StoreWord;
    match c.instrs[s.pc]
    case Op(m, ra, rb, rc) =>
      if m == ArrIns {
        WriteKeeps(s.core, ra, rb, rc);
      } else if m == Arr {
        ArrayKeeps(env, s.(pc := s.pc + 1), ra, rb, rc, gc);
      }
    case _ =>
  }

  lemma {:induction false} RunKeepsHeap(env: Env, c: Code, s: Ref, gcs: seq<bool>)
    requires HeapOk(s.core.mem) && RefRun(env, c, s, gcs).Next?
    ensures HeapOk(RefRun(env, c, s, gcs).s.core.mem)
    decreases |gcs|
  {
    hide HeapOk, RefStep;
    if gcs != [] {
      StepKeepsHeap(env, c, s, gcs[0]);
      RunKeepsHeap(env, c, RefStep(env, c, s, gcs[0]).s, gcs[1..]);
    }
  }

  // On an assembled image the invariant holds in every state of every run.
  lemma {:induction false} VmRunKeepsHeap(env: Env, c: Code, ld: Loaded, v: Vm, gcs: seq<bool>)
    requires LoadedFrom(c, ld) && Rel(c, StartRef(), v) && RefRun(env, c, StartRef(), gcs).Next?
    ensures VmRun(env, ld, v, gcs).Next? && HeapOk(VmRun(env, ld, v, gcs).s.core.mem)
  {
    EmptyHeapOk();
    RunKeepsHeap(env, c, StartRef(), gcs);
    SimRun(env, c, ld, StartRef(), v, gcs);
    hide RefRun, VmRun, LoadedFrom, CellsRel, FramesRel, HeapOk, Addr;
  }

  // ---------- pointers are never forged ----------

  // Every pointer among the words is in K.
  ghost predicate From(K: set<Word>, ws: seq<Word>) {
    forall i {:trigger ws[i]} :: 0 <= i < |ws| && IsPointer(ws[i]) ==> ws[i] in K
  }

  // Every pointer a program could get at in the heap is in K: in any array, from its fields on, and
  // behind the arrays.
  ghost predicate HeapFrom(K: set<Word>, m: Mem) {
    (forall a {:trigger m.active.mem[a]} :: a in m.active.mem ==> From(K, Visible(m.active.mem[a]))) &&
    forall x {:trigger m.loose[x]} :: x in m.loose && IsPointer(m.loose[x]) ==> m.loose[x] in K
  }

  // Every pointer in registers, in the whole stack and in the heap is in K.
  ghost predicate Known(K: set<Word>, s: Ref) {
    From(K, s.core.reg) && From(K, CellWords(s.stack)) && HeapFrom(K, s.core.mem)
  }

  // The handles of all objects in the heap.
  function Handles(m: Mem): set<Word> {
    set a | a in m.active.mem :: PointerTo(a)
  }

  // What a collection before an allocation leaves in the heap.
  function ArrayHandles(env: Env, s: Ref, gc: bool): set<Word> {
    if gc && RefGc(env, s).Next? then Handles(RefGc(env, s).s.core.mem) else {}
  }

  // Handles of the objects in the heap after a step and, if it collected, between collection
  // and allocation.
  function StepHandles(env: Env, c: Code, s: Ref, gc: bool): set<Word> {
    var r := RefStep(env, c, s, gc);
    ArrayHandles(env, s, gc) + if r.Next? then Handles(r.s.core.mem) else {}
  }

  // Handles of all objects the heap held at any moment of the run.
  function HandlesOfRun(env: Env, c: Code, s: Ref, gcs: seq<bool>): set<Word>
    decreases |gcs|
  {
    if gcs == [] then {}
    else
      var r := RefStep(env, c, s, gcs[0]);
      StepHandles(env, c, s, gcs[0]) + if r.Next? then HandlesOfRun(env, c, r.s, gcs[1..]) else {}
  }

  // Immediates carry no pointer tag (the assembler's literals never do).
  ghost predicate PlainLoads(c: Code) {
    forall k :: 0 <= k < |c.instrs| && c.instrs[k].Load? ==> !IsPointer(c.instrs[k].imm)
  }

  lemma {:induction false} KnownGrows(K: set<Word>, L: set<Word>, s: Ref)
    requires Known(K, s) && K <= L
    ensures Known(L, s)
  {
    hide IsPointer;
  }

  lemma {:induction false} SetRegKnown(K: set<Word>, s: Ref, k: Byte, w: Word)
    requires Known(K, s) && (IsPointer(w) ==> w in K)
    ensures Known(K, s.(core := SetReg(s.core, k, w)))
  {
    hide IsPointer;
  }

  lemma {:induction false} SetCellKnown(K: set<Word>, s: Ref, k: nat, cell: Cell)
    requires Known(K, s) && k < 4096 && (IsPointer(CellWord(cell)) ==> CellWord(cell) in K)
    ensures Known(K, s.(stack := s.stack[k := cell]))
  {
    hide IsPointer;
    assert CellWords(s.stack[k := cell]) == CellWords(s.stack)[k := CellWord(cell)];
  }

  lemma {:induction false} WordKnown(K: set<Word>, m: Mem, a: nat, j: nat)
    requires HeapFrom(K, m) && a in m.active.mem && j >= FIELDS && ReadWord(m, a, j).Some?
    ensures IsPointer(ReadWord(m, a, j).value) ==> ReadWord(m, a, j).value in K
  {
    hide IsPointer, FreeBehind;
    var o := m.active.mem[a];
    if j < |o.payload| {
      assert Visible(o)[j - FIELDS] == o.payload[j];
      assert From(K, Visible(o));
    }
  }

  lemma {:induction false} StoreKnown(K: set<Word>, m: Mem, a: nat, j: nat, w: Word)
    requires HeapFrom(K, m) && a in m.active.mem && j >= FIELDS && (IsPointer(w) ==> w in K)
    ensures HeapFrom(K, StoreWord(m, a, j, w))
  {
    hide IsPointer;
    var m' := StoreWord(m, a, j, w);
    if j < |m.active.mem[a].payload| {
      VisibleSet(m.active.mem[a], j, w);
      forall b {:trigger m'.active.mem[b]} | b in m'.active.mem ensures From(K, Visible(m'.active.mem[b])) {
        assert From(K, Visible(m.active.mem[b]));
      }
    }
  }

  lemma {:induction false} ReadKnown(K: set<Word>, s: Ref, rd: Byte, rarr: Byte, ridx: Byte)
    requires Known(K, s) && CoreRead(rd, rarr, ridx, s.core).Next?
    ensures Known(K, s.(core := CoreRead(rd, rarr, ridx, s.core).s))
  {
    LocatedObject(s.core.mem, s.core.reg[rarr], s.core.reg[ridx]);
    hide IsPointer, HeapFrom, Locate, ReadWord;
    var (a, j) := Locate(s.core.mem, s.core.reg[rarr], s.core.reg[ridx]).s;
    WordKnown(K, s.core.mem, a, j);
    SetRegKnown(K, s, rd, ReadWord(s.core.mem, a, j).value);
  }

  lemma {:induction false} WriteKnown(K: set<Word>, s: Ref, rs: Byte, rarr: Byte, ridx: Byte)
    requires Known(K, s) && CoreWrite(rs, rarr, ridx, s.core).Next?
    ensures Known(K, s.(core := CoreWrite(rs, rarr, ridx, s.core).s))
  {
    LocatedObject(s.core.mem, s.core.reg[rarr], s.core.reg[ridx]);
    hide IsPointer, HeapFrom, Locate, StoreWord, Reachable;
    var (a, j) := Locate(s.core.mem, s.core.reg[rarr], s.core.reg[ridx]).s;
    StoreKnown(K, s.core.mem, a, j, s.core.reg[rs]);
  }

  // A collection leaves old words or handles of the new heap.
  lemma {:induction false} GcKnown(env: Env, K: set<Word>, s: Ref)
    requires HeapOk(s.core.mem) && Known(K, s) && RefGc(env, s).Next?
    ensures Known(K + Handles(RefGc(env, s).s.core.mem), RefGc(env, s).s)
  {
    hide HeapOk, IsPointer, SpaceOk, Gc, CellWord, Compacted, Marked, HeapFrom;
    var roots := s.core.reg + CellWords(s.stack[..s.sp]);
    GcKeeps(env, s.core.mem, roots);
    var (m', fwd) := Gc(env, s.core.mem, roots).s;
    var L := K + Handles(m');
    hide HeapOk, IsPointer, Gc, SpaceOk, HeaderOf, PointerTo;
    forall a | a in fwd ensures PointerTo(fwd[a]) in L {
      assert fwd[a] in m'.active.mem;
    }
    assert From(L, PatchAll(fwd, s.core.reg));
    var cells := PatchCells(fwd, s.stack, s.sp);
    forall i {:trigger CellWords(cells)[i]} | 0 <= i < 4096 && IsPointer(CellWords(cells)[i])
      ensures CellWords(cells)[i] in L
    {
      CellPatched(fwd, s.stack[i]);
      assert CellWords(s.stack)[i] == CellWord(s.stack[i]);
    }
    CollectFrom(env, K, s.core.mem, roots);
    FromGrows(K, L, m');
  }

  lemma {:induction false} CollectFrom(env: Env, K: set<Word>, m: Mem, roots: seq<Word>)
    requires HeapOk(m) && HeapFrom(K, m) && Gc(env, m, roots).Next?
    ensures HeapFrom(K, Gc(env, m, roots).s.0)
  {
    GcKeeps(env, m, roots);
    GcLoose(env, m, roots);
    hide HeapOk, Gc, SpaceOk, Visible, From, Filter, Walk, Images;
    var (m', fwd) := Gc(env, m, roots).s;
    forall b {:trigger m'.active.mem[b]} | b in m'.active.mem ensures From(K, Visible(m'.active.mem[b])) {
      var a :| a in fwd && fwd[a] == b;
      SameVisible(m.active.mem[a], m'.active.mem[b]);
    }
  }

  lemma {:induction false} GcLoose(env: Env, m: Mem, roots: seq<Word>)
    requires Gc(env, m, roots).Next?
    ensures Gc(env, m, roots).s.0.loose == map[]
  {
    hide Marked, Overruns;
  }

  lemma {:induction false} FromGrows(K: set<Word>, L: set<Word>, m: Mem)
    requires HeapFrom(K, m) && K <= L
    ensures HeapFrom(L, m)
  {
    hide IsPointer, Visible;
  }

  lemma {:induction false} CellPatched(fwd: map<nat, nat>, cell: Cell)
    ensures IsPointer(CellWord(PatchCell(fwd, cell))) ==>
              CellWord(PatchCell(fwd, cell)) == CellWord(cell) ||
              exists a :: a in fwd && CellWord(PatchCell(fwd, cell)) == PointerTo(fwd[a])
  {
  }

  lemma {:induction false} NewArrayKnown(env: Env, K: set<Word>, s: Ref, rd: Byte, length: int, rty: Byte)
    requires HeapOk(s.core.mem) && Known(K, s) && CoreNewArray(env, rd, length, rty, s.core).Next?
    ensures var c := CoreNewArray(env, rd, length, rty, s.core).s; Known(K + Handles(c.mem), s.(core := c))
  {
    var n := DecodeInt(s.core.reg[rty]) % TWO32;
    hide HeapOk, IsPointer, NewArray, ArraySize, HeapFrom;
    var (m', a) := NewArray(env.malloc, env.stale, s.core.mem, length, n).value;
    NewFrom(env, K, s.core.mem, length, n, m', a);
    var L := K + Handles(m');
    HandleIn(m', a);
    FromGrows(K, L, m');
    KnownGrows(K, L, s);
    SetRegKnown(L, s.(core := s.core.(mem := m')), rd, PointerTo(a));
  }

  lemma {:induction false} HandleIn(m: Mem, a: nat)
    requires a in m.active.mem
    ensures PointerTo(a) in Handles(m)
  {
  }

  // What a new array brings into the heap is no pointer.
  lemma {:induction false} NewFrom(env: Env, K: set<Word>, m: Mem, length: nat, n: nat, m': Mem, a: nat)
    requires HeapOk(m) && HeapFrom(K, m) && ArraySize(length) <= CHUNK_SIZE
    requires NewArray(env.malloc, env.stale, m, length, n) == Some((m', a))
    ensures HeapFrom(K, m') && a in m'.active.mem
  {
    NewArrayKeeps(env.malloc, env.stale, m, length, n);
    NewObjQuiet(env.malloc, env.stale, m, length, n);
    var ws := NewWords(env.malloc, env.stale, m, length, n);
    assert forall j :: FIELDS <= j < |ws| ==> !IsPointer(ws[j]) by {
      NewWordsPlain(env.malloc, env.stale, m, length, n);
    }
    SpillFrom(K, m.loose, a, ws);
    hide HeapOk, IsPointer, NewArray, NewWords, NewObj, ArraySize, Visible, Spill;
    forall b {:trigger m'.active.mem[b]} | b in m'.active.mem ensures From(K, Visible(m'.active.mem[b])) {
      if b != a {
        assert From(K, Visible(m.active.mem[b]));
      }
    }
  }

  lemma {:induction false} NewWordsPlain(malloc: Malloc, stale: Stale, m: Mem, length: nat, elemType: nat)
    requires ArraySize(length) <= CHUNK_SIZE
    ensures var ws := NewWords(malloc, stale, m, length, elemType); forall j :: FIELDS <= j < |ws| ==> !IsPointer(ws[j])
  {
    NewWordsAre(malloc, stale, m, length, elemType);
    ArraySizeExact(length);
    FieldsPlain(elemType, length);
    SmallWordsAreDoubles(0);
    hide NewWords, FieldsWord, ArraySize, IsPointer;
  }

  lemma {:induction false} SpillFrom(K: set<Word>, loose: map<nat, Word>, a: nat, ws: seq<Word>)
    requires |ws| >= 3 && forall j :: FIELDS <= j < |ws| ==> !IsPointer(ws[j])
    requires forall x {:trigger loose[x]} :: x in loose && IsPointer(loose[x]) ==> loose[x] in K
    ensures var l := Spill(loose, a, ws); forall x {:trigger l[x]} :: x in l && IsPointer(l[x]) ==> l[x] in K
  {
    hide IsPointer;
  }

  lemma {:induction false} ArrayKnown(env: Env, K: set<Word>, s: Ref, rd: Byte, rlen: Byte, rty: Byte, gc: bool)
    requires HeapOk(s.core.mem) && Known(K, s) && RefArray(env, rd, rlen, rty, s, gc).Next?
    ensures var t := RefArray(env, rd, rlen, rty, s, gc).s; Known(K + ArrayHandles(env, s, gc) + Handles(t.core.mem), t)
  {
    hide HeapOk, Known, Gc, CoreNewArray, Handles, Compacted;
    var length := DecodeInt(s.core.reg[rlen]);
    if gc {
      GcKnown(env, K, s);
      GcKeeps(env, s.core.mem, s.core.reg + CellWords(s.stack[..s.sp]));
      var s' := RefGc(env, s).s;
      NewArrayKnown(env, K + Handles(s'.core.mem), s', rd, length, rty);
    } else {
      NewArrayKnown(env, K, s, rd, length, rty);
      KnownGrows(K + Handles(RefArray(env, rd, rlen, rty, s, gc).s.core.mem),
                 K + {} + Handles(RefArray(env, rd, rlen, rty, s, gc).s.core.mem),
                 RefArray(env, rd, rlen, rty, s, gc).s);
    }
  }

  lemma {:induction false} OpKnown(env: Env, K: set<Word>, m: Mnemonic, ra: Byte, rb: Byte, rc: Byte, s: Ref)
    requires Known(K, s) && m != Arr && RefOp(env, m, ra, rb, rc, s, false).Next?
    ensures Known(K, RefOp(env, m, ra, rb, rc, s, false).s)
  {
    hide Known, IsPointer, CoreWrite, CoreRead, Guarded, CompareWords, ArithWords;
    RegKnown(K, s, ra);
    RegKnown(K, s, rb);
    RegKnown(K, s, rc);
    var t := RefOp(env, m, ra, rb, rc, s, false).s;
    match m
    case Add =>
      ArithPlain(env, ArithOp.Add, s.core.reg[rb], s.core.reg[rc]);
      SetRegKnown(K, s, ra, t.core.reg[ra]);
    case Sub =>
      ArithPlain(env, ArithOp.Sub, s.core.reg[rb], s.core.reg[rc]);
      SetRegKnown(K, s, ra, t.core.reg[ra]);
    case Mul =>
      ArithPlain(env, ArithOp.Mul, s.core.reg[rb], s.core.reg[rc]);
      SetRegKnown(K, s, ra, t.core.reg[ra]);
    case Div =>
      ArithPlain(env, ArithOp.Div, s.core.reg[rb], s.core.reg[rc]);
      SetRegKnown(K, s, ra, t.core.reg[ra]);
    case Mov => SetRegKnown(K, s, ra, s.core.reg[rb]);
    case Cmp => SameWords(K, s, t);
    case DbgRet => SameWords(K, s, t);
    case Ret => SameWords(K, s, t);
    case End =>
    case ArrIns => WriteKnown(K, s, ra, rb, rc);
    case ArrRead => ReadKnown(K, s, ra, rb, rc);
    case Push =>
      SetCellKnown(K, s, s.sp, Val(s.core.reg[ra]));
      SameWords(K, s.(stack := s.stack[s.sp := Val(s.core.reg[ra])]), t);
    case Pop =>
      CellKnown(K, s, s.sp - 1);
      SetRegKnown(K, s, ra, s.stack[s.sp - 1].w);
      SameWords(K, s.(core := t.core), t);
    case Ins => SetCellKnown(K, s, Slot(ra, rb), Val(s.core.reg[rc]));
    case Read =>
      CellKnown(K, s, Slot(ra, rb));
      SetRegKnown(K, s, rc, s.stack[Slot(ra, rb)].w);
  }

  lemma {:induction false} RegKnown(K: set<Word>, s: Ref, k: Byte)
    requires Known(K, s)
    ensures IsPointer(s.core.reg[k]) ==> s.core.reg[k] in K
  {
  }

  lemma {:induction false} CellKnown(K: set<Word>, s: Ref, k: nat)
    requires Known(K, s) && k < 4096
    ensures IsPointer(CellWord(s.stack[k])) ==> CellWord(s.stack[k]) in K
  {
    assert CellWords(s.stack)[k] == CellWord(s.stack[k]);
  }

  lemma {:induction false} SameWords(K: set<Word>, s: Ref, t: Ref)
    requires Known(K, s) && t.core.reg == s.core.reg && t.stack == s.stack && t.core.mem == s.core.mem
    ensures Known(K, t)
  {
  }

  lemma {:induction false} CallKnown(K: set<Word>, c: Code, s: Ref, idx: nat)
    requires Known(K, s) && RefCall(c, idx, s).Next?
    ensures Known(K, RefCall(c, idx, s).s)
  {
    hide Known, IsPointer;
    assert !IsPointer(CellWord(Saved)) by { SmallWordsAreDoubles(0); }
    var u := s.(stack := s.stack[s.sp := Saved]);
    SetCellKnown(K, s, s.sp, Saved);
    SetCellKnown(K, u, s.sp + 1, Saved);
    SameWords(K, u.(stack := u.stack[s.sp + 1 := Saved]), RefCall(c, idx, s).s);
  }

  // No instruction but an array allocation brings a new pointer into being, and that one
  // only handles of objects the heap then holds.
  lemma {:induction false} StepKnown(env: Env, K: set<Word>, c: Code, s: Ref, gc: bool)
    requires PlainLoads(c) && HeapOk(s.core.mem) && Known(K, s) && RefStep(env, c, s, gc).Next?
    ensures Known(K + StepHandles(env, c, s, gc), RefStep(env, c, s, gc).s)
  {
    hide HeapOk, Known, IsPointer, RefOp, RefCall, Handles;
    var s' := s.(pc := s.pc + 1);
    SameWords(K, s, s');
    var t := RefStep(env, c, s, gc).s;
    var L := K + StepHandles(env, c, s, gc);
    match c.instrs[s.pc]
    case Op(m, ra, rb, rc) =>
      if m == Arr {
        ArrIsArray(env, ra, rb, rc, s', gc);
        ArrayKnown(env, K, s', ra, rb, rc, gc);
        SameHandles(env, s, s', gc);
        KnownGrows(K + ArrayHandles(env, s', gc) + Handles(t.core.mem), L, t);
      } else {
        GcIrrelevant(env, m, ra, rb, rc, s', gc);
        OpKnown(env, K, m, ra, rb, rc, s');
        KnownGrows(K, L, t);
      }
    case Load(rd, imm) =>
      SetRegKnown(K, s', rd, imm);
      KnownGrows(K, L, t);
    case Call(idx) =>
      CallKnown(K, c, s', idx);
      KnownGrows(K, L, t);
    case Branch(_, target) =>
      SameWords(K, s, t);
      KnownGrows(K, L, t);
  }

  lemma {:induction false} ArrIsArray(env: Env, ra: Byte, rb: Byte, rc: Byte, s: Ref, gc: bool)
    ensures RefOp(env, Arr, ra, rb, rc, s, gc) == RefArray(env, ra, rb, rc, s, gc)
  {
    hide RefArray, CoreArith, CoreCompare;
  }

  lemma {:induction false} GcIrrelevant(env: Env, m: Mnemonic, ra: Byte, rb: Byte, rc: Byte, s: Ref, gc: bool)
    requires m != Arr
    ensures RefOp(env, m, ra, rb, rc, s, gc) == RefOp(env, m, ra, rb, rc, s, false)
  {
  }

  lemma {:induction false} SameHandles(env: Env, s: Ref, s': Ref, gc: bool)
    requires s'.core == s.core && s'.stack == s.stack && s'.sp == s.sp
    ensures ArrayHandles(env, s', gc) == ArrayHandles(env, s, gc)
  {
    hide Gc;
  }

  // In every run, every pointer-tagged word in registers, stack or arrays is the handle of an
  // object that the heap held at some moment of the run: issued by an allocation, or the
  // forwarded image of one issued before.
  lemma {:induction false} NeverForged(env: Env, K: set<Word>, c: Code, s: Ref, gcs: seq<bool>)
    requires PlainLoads(c) && HeapOk(s.core.mem) && Known(K, s) && RefRun(env, c, s, gcs).Next?
    ensures Known(K + HandlesOfRun(env, c, s, gcs), RefRun(env, c, s, gcs).s)
    decreases |gcs|
  {
    hide HeapOk, Known, RefStep, PlainLoads, StepHandles;
    if gcs == [] {
      KnownGrows(K, K + HandlesOfRun(env, c, s, gcs), s);
    } else {
      var t := RefStep(env, c, s, gcs[0]).s;
      StepKeepsHeap(env, c, s, gcs[0]);
      StepKnown(env, K, c, s, gcs[0]);
      var L := K + StepHandles(env, c, s, gcs[0]);
      NeverForged(env, L, c, t, gcs[1..]);
      KnownGrows(L + HandlesOfRun(env, c, t, gcs[1..]), K + HandlesOfRun(env, c, s, gcs), RefRun(env, c, s, gcs).s);
    }
  }

  lemma {:induction false} StartKnown()
    ensures Known({}, StartRef()) && HeapOk(StartRef().core.mem)
  {
    EmptyHeapOk();
    SmallWordsAreDoubles(0);
  }

  // The same for the loaded machine: saved words included, nothing in its registers, stack or
  // arrays tests as a pointer that the heap did not hand out.
  lemma {:induction false} VmNeverForged(env: Env, c: Code, ld: Loaded, v: Vm, gcs: seq<bool>)
    requires LoadedFrom(c, ld) && Rel(c, StartRef(), v) && PlainLoads(c) && RefRun(env, c, StartRef(), gcs).Next?
    ensures VmRun(env, ld, v, gcs).Next?
    ensures var x, K := VmRun(env, ld, v, gcs).s, HandlesOfRun(env, c, StartRef(), gcs);
            From(K, x.core.reg) && From(K, x.stack) &&
            HeapFrom(K, x.core.mem)
  {
    StartKnown();
    NeverForged(env, {}, c, StartRef(), gcs);
    SimRun(env, c, ld, StartRef(), v, gcs);
    hide RefRun, VmRun, LoadedFrom, FramesRel, HeapOk, Addr, IsPointer, HandlesOfRun;
    var t, x, K := RefRun(env, c, StartRef(), gcs).s, VmRun(env, ld, v, gcs).s, HandlesOfRun(env, c, StartRef(), gcs);
    assert {} + K == K;
    forall i {:trigger x.stack[i]} | 0 <= i < 4096 && IsPointer(x.stack[i]) ensures x.stack[i] in K {
      assert CellRel(t.stack[i], x.stack[i]);
      CellKnown(K, t, i);
    }
  }

  // ---------- assembled texts load no pointers ----------

  lemma {:induction false} FlatLoads(p: Program, n: nat)
    requires n <= |p| &&
             forall f, k :: 0 <= f < |p| && 0 <= k < |p[f].body| && p[f].body[k].Load? ==> !IsPointer(p[f].body[k].imm)
    ensures forall k :: 0 <= k < Start(p, n) && FlatUpTo(p, n)[k].Load? ==> !IsPointer(FlatUpTo(p, n)[k].imm)
  {
    hide IsPointer, LabelIndex;
    if n > 0 {
      FlatLoads(p, n - 1);
      var body, before := ResolveBody(p[n - 1], Start(p, n - 1)), Start(p, n - 1);
      forall k | before <= k < Start(p, n) && FlatUpTo(p, n)[k].Load? ensures !IsPointer(FlatUpTo(p, n)[k].imm) {
        assert FlatUpTo(p, n)[k] == body[k - before];
        assert p[n - 1].body[k - before].Load?;
      }
    }
  }

  lemma {:induction false} TextPlainLoads(lines: seq<Line>)
    requires ParseLines(lines).Ok?
    ensures PlainLoads(Resolve(ParseLines(lines).value))
  {
    hide IsPointer;
    var p := ParseLines(lines).value;
    forall f, k | 0 <= f < |p| && 0 <= k < |p[f].body| && p[f].body[k].Load? ensures !IsPointer(p[f].body[k].imm) {
      TextLoadsPlain(lines, f, k);
    }
    FlatLoads(p, |p|);
  }

  // From text to running machine: no register, stack slot or array element ever tests as a
  // pointer that the heap did not hand out during the run.
  lemma {:induction false} AssembledTextForgesNothing(env: Env, lines: seq<Line>, gcs: seq<bool>)
    requires ParseLines(lines).Ok? && Loadable(Resolve(ParseLines(lines).value))
    requires RefRun(env, Resolve(ParseLines(lines).value), StartRef(), gcs).Next?
    ensures var c := Resolve(ParseLines(lines).value);
            var r := LoadVm(Assembly.Image(c));
            r.Next? && VmRun(env, r.s.0, r.s.1, gcs).Next? &&
            var x, K := VmRun(env, r.s.0, r.s.1, gcs).s, HandlesOfRun(env, c, StartRef(), gcs);
            From(K, x.core.reg) && From(K, x.stack) &&
            HeapFrom(K, x.core.mem)
  {
    hide LoadVm, Assembly.Image, RefRun, VmRun, Rel, LoadedFrom, PlainLoads, HandlesOfRun, From;
    var c := Resolve(ParseLines(lines).value);
    TextPlainLoads(lines);
    LoadImage(c);
    VmNeverForged(env, c, LoadVm(Assembly.Image(c)).s.0, LoadVm(Assembly.Image(c)).s.1, gcs);
  }
}
