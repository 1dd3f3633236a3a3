// The virtual machine itself: arrays, fields and heaps changed in place, each operation proved
// against the machine as a function (src/vm/vm.h, vm.cpp, decode.cpp, execution.h,
// execution.cpp, bytecode.cpp, Heap.cpp).
module VirtualMachine {
  import opened Words
  import opened Wrappers
  import opened Bytes
  import opened Isa
  import opened Space
  import opened Collector
  import opened HeapOps
  import opened HalfSpace
  import opened Marking
  import opened Machine
  import opened VmSpec
  import opened Loading

  const HEAPSIZE: nat := 536870912

  datatype Status = Running | Halted | Thrown(e: Fault)

  class VM {
    const env: Env
    const reg: array<Word>
    const stack: array<Word>
    const heapA: Heap
    const heapB: Heap
    const functionTable: array<FuncInfo>
    var bytecode: seq<Byte>
    var ip: nat
    var sp: nat
    var fp: nat
    var jmpFlag: int
    var running: bool
    var heapAUsed: bool
    var out: seq<Printed>

    // The zero-initialised global of src/main.cpp, with its code and two empty heaps.
    constructor (environment: Env, code: seq<Byte>)
      ensures Valid() && fresh(reg) && fresh(stack) && fresh(heapA) && fresh(heapB) && fresh(functionTable) &&
              env == environment && bytecode == code
      ensures heapA.max == heapB.max == 512 * 1024 * 1024
      ensures !running && State() == Initial(0).(core := Initial(0).core.(flag := 0)) &&
              functionTable[..] == ZeroTable()
    {
      env := environment;
      reg := new Word[256](_ => 0);
      stack := new Word[4096](_ => 0);
      heapA := new Heap(HEAPSIZE);
      heapB := new Heap(HEAPSIZE);
      functionTable := new FuncInfo[2048](_ => FuncInfo(0, 0));
      bytecode := code;
      ip, sp, fp, jmpFlag, running, heapAUsed, out := 0, 0, 0, 0, false, true, [];
      new;
      EmptyHeapOk();
      assert reg[..] == ZeroWords(256) && stack[..] == ZeroWords(4096) && functionTable[..] == ZeroTable();
    }

    // The buffers have their sizes and are different objects.
    ghost predicate Shape()
      reads this, heapA`chunks, heapA`loose, heapA`totalAllocated, heapB`chunks, heapB`loose, heapB`totalAllocated
    {
      reg.Length == 256 && stack.Length == 4096 && reg != stack && functionTable.Length == 2048 && heapA != heapB &&
      heapA.max == heapB.max && heapA.Valid() && heapB.Valid() && Idle().loose == map[]
    }

    ghost predicate Valid()
      reads this, heapA, heapB
    {
      Shape() && HeapOk(Heaps())
    }

    function Active(): Heap
      reads this
    {
      if heapAUsed then heapA else heapB
    }

    function Idle(): Heap
      reads this
    {
      if heapAUsed then heapB else heapA
    }

    ghost function Heaps(): Mem
      reads this, heapA, heapB
    {
      Mem(Active().View(), Idle().View(), Active().loose)
    }

    ghost function Core(): Machine.Core
      reads this, reg, heapA, heapB
      requires Shape()
    {
      Machine.Core(reg[..], jmpFlag, out, Heaps())
    }

    // The machine as a value.
    ghost function State(): Vm
      reads this, reg, stack, heapA, heapB
      requires Shape()
    {
      Vm(ip, Core(), stack[..], sp, fp)
    }

    ghost function Image(): Loaded
      reads this, functionTable
      requires functionTable.Length == 2048
    {
      Loaded(bytecode, functionTable[..])
    }

    // The machine and its status are what r says.
    ghost predicate Is(r: Outcome<Vm>, st: Status)
      reads this, reg, stack, heapA, heapB
    {
      match r
      case Next(v) => st == Running && running && Valid() && State() == v
      case Halt(v) => st == Halted && !running && Valid() && State() == v
      case Throw(e) => st == Thrown(e)
      case Undefined => false
    }

    // ---------- marking ----------

    method MarkObject(h: Heap, w: Word) returns (marked: bool)
      requires IsPointer(w) ==> HeaderOf(w) in h.mem
      modifies h`mem
      ensures marked == IsPointer(w)
      ensures h.mem == if marked then old(h.mem)[HeaderOf(w) := old(h.mem)[HeaderOf(w)].(marked := true)]
              else old(h.mem)
    {
      if IsPointer(w) {
        var hdr := HeaderOf(w);
        h.mem := h.mem[hdr := h.mem[hdr].(marked := true)];
        return true;
      }
      return false;
    }

    // Mark what the words name; the slots that hold pointers.
    method MarkWords(h: Heap, home: Home, ws: seq<Word>, ghost m0: map<nat, Obj>, ghost before: set<int>)
      returns (slots: seq<Slot>)
      requires h.mem == Flagged(m0, before) && forall a :: a in Named(ws) ==> a in m0
      modifies h`mem
      ensures h.mem == Flagged(m0, before + Named(ws)) && slots == WordSlots(home, ws, |ws|)
    {
      hide Named, IsPointer, HeaderOf, Flagged;
      slots := [];
      MarkNone(m0, before, ws);
      for k := 0 to |ws|
        invariant h.mem == Flagged(m0, before + Named(ws[..k])) && slots == WordSlots(home, ws, k)
      {
        NamedWord(ws, k);
        MarkStep(m0, before, ws, k);
        var marked := MarkObject(h, ws[k]);
        if marked {
          slots := slots + [Slot(home, k)];
        }
      }
      assert ws[..|ws|] == ws;
    }

    // Mark what tracing finds in the objects; the slots that hold pointers.
    method MarkElements(h: Heap, objects: seq<nat>, ghost m0: map<nat, Obj>, ghost before: set<int>)
      returns (slots: seq<Slot>)
      requires h.mem == Flagged(m0, before) && forall a :: a in objects ==> a in m0 && ElementsKnown(m0, a)
      modifies h`mem
      ensures h.mem == Flagged(m0, before + NamedBy(m0, objects, |objects|)) &&
              slots == ElemSlots(m0, objects, |objects|)
    {
      hide Named, Flagged, Traced, Scanned, ElementsKnown;
      slots := [];
      MarkNobody(m0, before, objects);
      for k := 0 to |objects|
        invariant h.mem == Flagged(m0, before + NamedBy(m0, objects, k)) && slots == ElemSlots(m0, objects, k)
      {
        var a := objects[k];
        FlaggedAt(m0, before + NamedBy(m0, objects, k), a);
        MarkArray(m0, before, objects, k);
        NothingScanned(m0, before + NamedBy(m0, objects, k), a);
        if Traced(h.mem[a]) {
          var more := MarkWords(h, InObject(a), Scanned(h.mem[a]), m0, before + NamedBy(m0, objects, k));
          slots := slots + more;
        }
      }
    }

    // One pass over registers, live stack and every object: what they name is marked.
    method MarkObjects() returns (ptrHolder: seq<Slot>)
      requires Shape() && sp <= STACK_SIZE && SpaceOk(Active().View()) &&
               Collectable(Heaps(), reg[..] + stack[..sp])
      modifies Active()`mem
      ensures Active().mem == Flagged(old(Active().mem), Marked(reg[..] + stack[..sp], old(Active().View())))
      ensures (forall a :: a in Walk(old(Active().View())) ==> a in old(Active().mem)) &&
              ptrHolder == PointerSlots(reg[..], stack[..sp], old(Active().View()))
    {
      hide Named, Flagged, SpaceOk, Walk, ElementsKnown, WordSlots, ElemSlots;
      var h := Active();
      ghost var s, m0 := h.View(), h.mem;
      var objects := h.GetAllObjects();
      RootsKnown(reg[..], stack[..sp], s);
      FlagNothing(m0);
      var regs := MarkWords(h, InRegs, reg[..], m0, {});
      var live := MarkWords(h, InStack, stack[..sp], m0, {} + Named(reg[..]));
      var elems := MarkElements(h, objects, m0, {} + Named(reg[..]) + Named(stack[..sp]));
      ptrHolder := regs + live + elems;
    }

    // ---------- moving ----------

    // Copy one marked object into h2 and leave its new address behind.
    method MoveObject(h1: Heap, h2: Heap, a: nat, ghost from: Space, ghost marked: set<int>, ghost seen: seq<nat>,
                      ghost start: Space, ghost fwd: map<nat, nat>) returns (ok: bool, ghost fwd': map<nat, nat>)
      requires h1 != h2 && h2.Valid() && h1.chunks == from.chunks && h1.mem == Forwarded(from.mem, fwd)
      requires Evacuating(env.malloc, from, marked, seen, start, h2.View(), fwd)
      requires a in from.mem && GoodSize(from.mem[a].size) && a in marked
      modifies h1`mem, h2`chunks, h2`mem, h2`totalAllocated
      ensures ok ==> h2.Valid() && h1.mem == Forwarded(from.mem, fwd') &&
                     Evacuating(env.malloc, from, marked, seen + [a], start, h2.View(), fwd')
      ensures !ok ==> forall b :: b in seen + [a] ==> b in from.mem
      ensures !ok ==> Evacuate(env.malloc, from, marked, seen + [a], start) == None
    {
      hide Place, Evacuate, Forwarded, Bases;
      var o := h1.mem[a];
      ghost var to := h2.View();
      ForwardedAt(from.mem, fwd, a);
      SameBases(h1.View(), from);
      EvacuateSnoc(env.malloc, from, marked, seen, a, start);
      CopySize(from.mem[a]);
      ghost var b := Spot(env.malloc, Bases(from), to, o.size);
      PlaceFill(env.malloc, Bases(from), to, Blank(env.stale, h2.loose, b, o.size, o.kind), Copy(from.mem[a]));
      var address := h2.HeapAlloc(env.malloc, env.stale, Bases(h1.View()), o.size - OBJ_HEADER, o.kind);
      fwd' := fwd;
      if address == None {
        return false, fwd';
      }
      h2.WritePayload(address.value, o.payload);
      h1.mem := h1.mem[a := h1.mem[a].(forwarded := EncodePointer(address.value + 16))];
      ForwardOne(from.mem, fwd, a, address.value);
      fwd' := fwd[a := address.value];
      ok := true;
    }

    // Evacuate the marked objects of h1 into h2, in walking order.
    method MoveObjects(h1: Heap, h2: Heap, ghost marked: set<int>) returns (ok: bool, ghost fwd: map<nat, nat>)
      requires h1 != h2 && h2.Valid() && SpaceOk(h1.View()) &&
               forall a :: a in h1.mem ==> (h1.mem[a].marked <==> a in marked)
      modifies h1`mem, h2`chunks, h2`mem, h2`totalAllocated
      ensures ok == Evacuates(env.malloc, old(h1.View()), marked, old(h2.View())).Some?
      ensures ok ==> h2.Valid() && h1.mem == Forwarded(old(h1.mem), fwd) &&
                     Evacuates(env.malloc, old(h1.View()), marked, old(h2.View())) == Some((h2.View(), fwd))
    {
      hide WalkChunk, Parses, Evacuate, Forwarded, Place, SpaceOk;
      ghost var from, start := h1.View(), h2.View();
      ghost var seen: seq<nat> := [];
      fwd := map[];
      ForwardNothing(from.mem);
      EvacuateNothing(env.malloc, from, marked, start);
      for k := 0 to |h1.chunks|
        invariant h1.chunks == from.chunks && h2.Valid() && h1.mem == Forwarded(from.mem, fwd)
        invariant seen == WalkTo(from, k) && Evacuating(env.malloc, from, marked, seen, start, h2.View(), fwd)
      {
        ChunkIsOk(from, k);
        var c, i := h1.chunks[k], 0;
        while i < c.used
          invariant i <= c.used && Parses(from.mem, c.base, i, c.used)
          invariant h1.chunks == from.chunks && h2.Valid() && h1.mem == Forwarded(from.mem, fwd)
          invariant seen + WalkChunk(from.mem, c.base, i, c.used) == WalkTo(from, k + 1)
          invariant Evacuating(env.malloc, from, marked, seen, start, h2.View(), fwd)
          decreases c.used - i
        {
          WalkStep(from.mem, c.base, i, c.used);
          var a := c.base + i;
          ForwardedAt(from.mem, fwd, a);
          Regrouped(seen, a, WalkChunk(from.mem, c.base, i + from.mem[a].size, c.used));
          var size := h1.mem[a].size;
          if h1.mem[a].marked {
            ok, fwd := MoveObject(h1, h2, a, from, marked, seen, start, fwd);
            if !ok {
              NextSeen(from, k, seen, a, WalkChunk(from.mem, c.base, i + from.mem[a].size, c.used));
              EvacuatesFails(env.malloc, from, marked, seen + [a], start);
              return;
            }
          } else {
            SkipUnmarked(env.malloc, from, marked, seen, a, start, h2.View(), fwd);
          }
          seen := seen + [a];
          i := i + size;
        }
        WalkEnd(from.mem, c.base, c.used);
      }
      EvacuatesAll(env.malloc, from, marked, start, h2.View(), fwd);
      ok := true;
    }

    // ---------- patching ----------

    // *slot
    method ReadSlot(h: Heap, slot: Slot) returns (w: Word)
      requires Shape() && sp <= STACK_SIZE && SlotWord(reg[..], stack[..sp], h.mem, slot).Some?
      ensures w == SlotWord(reg[..], stack[..sp], h.mem, slot).value
    {
      match slot.home
      case InRegs => w := reg[slot.index];
      case InStack => w := stack[slot.index];
      case InObject(a) => w := h.mem[a].payload[1 + slot.index];
    }

    // *slot = w
    method WriteSlot(h: Heap, slot: Slot, w: Word)
      requires Shape() && sp <= STACK_SIZE && SlotWord(reg[..], stack[..sp], h.mem, slot).Some?
      modifies reg, stack, h`mem
      ensures (reg[..], stack[..sp], h.mem) == StoreSlot(old(reg[..]), old(stack[..sp]), old(h.mem), slot, w)
      ensures stack[sp..] == old(stack[sp..])
    {
      match slot.home
      case InRegs => reg[slot.index] := w;
      case InStack => stack[slot.index] := w;
      case InObject(a) => h.mem := h.mem[a := h.mem[a].(payload := h.mem[a].payload[1 + slot.index := w])];
    }

    // Every listed slot takes the forwarding word of the object it names; then h is freed.
    method UpdatePtrHolder(h: Heap, ptrHolder: seq<Slot>, ghost s: Space, ghost fwd: map<nat, nat>)
      requires Shape() && sp <= STACK_SIZE && SpaceOk(s) && forall a :: a in Walk(s) ==> a in s.mem
      requires ptrHolder == PointerSlots(reg[..], stack[..sp], s) &&
               forall a :: a in Marked(reg[..] + stack[..sp], s) ==> a in fwd
      requires Patched(reg[..], stack[..sp], h.mem, reg[..], stack[..sp], s.mem, fwd, [])
      modifies reg, stack, h
      ensures reg[..] == PatchAll(fwd, old(reg[..])) && stack[..sp] == PatchAll(fwd, old(stack[..sp]))
      ensures stack[sp..] == old(stack[sp..]) && h.Valid() && h.View() == EMPTY && h.loose == map[]
    {
      hide SlotWord, StoreSlot, SpaceOk, Walk, PointerSlots, Patched, Marked, HeaderOf, IsPointer;
      SlotsExact(reg[..], stack[..sp], s);
      for j := 0 to |ptrHolder|
        invariant Shape()
        invariant Patched(reg[..], stack[..sp], h.mem, old(reg[..]), old(stack[..sp]), s.mem, fwd, ptrHolder[..j])
        invariant stack[sp..] == old(stack[sp..])
      {
        var slot := ptrHolder[j];
        NotDone(ptrHolder, j);
        PatchOne(reg[..], stack[..sp], h.mem, old(reg[..]), old(stack[..sp]), s.mem, fwd, ptrHolder[..j], slot);
        var w := ReadSlot(h, slot);
        WriteSlot(h, slot, h.mem[HeaderOf(w)].forwarded);
      }
      assert ptrHolder[..|ptrHolder|] == ptrHolder;
      PatchedAll(reg[..], stack[..sp], h.mem, old(reg[..]), old(stack[..sp]), s, fwd);
      h.FreeHeap();
    }

    // ---------- one collection ----------

    // False: bad_alloc.
    method CompactingGarbageCollect() returns (ok: bool)
      requires Valid() && sp <= STACK_SIZE && Collectable(Heaps(), reg[..] + stack[..sp])
      modifies `heapAUsed, reg, stack, heapA, heapB
      ensures ok ==> Valid() && VmGc(env, old(State())) == Next(State()) && heapAUsed == !old(heapAUsed)
      ensures !ok ==> VmGc(env, old(State())) == Throw(BadAlloc)
    {
      hide SpaceOk, Walk, PointerSlots, Patched, Marked, HeapOk, Flagged, Forwarded, Collect, VmGc, WalkCovers,
        Evacuates, UsedTo;
      ghost var before := State();
      ghost var m := Heaps();
      ghost var roots := reg[..] + stack[..sp];
      ghost var marked := Marked(roots, m.active);
      HeapParts(m);
      FlaggedWalk(m, marked);
      var h1, h2 := Active(), Idle();
      var ptrHolder := MarkObjects();
      ghost var flagged := h1.View();
      ghost var fwd;
      ok, fwd := MoveObjects(h1, h2, marked);
      MovesAreCollects(env.malloc, m, flagged, marked);
      if !ok {
        GcFails(env, before);
        return;
      }
      CollectOk(env.malloc, m, Marked(roots, m.active));
      CollectKeeps(env.malloc, m, Marked(roots, m.active));
      StartPatching(reg[..], stack[..sp], m.active, marked, h1.mem, fwd);
      UpdatePtrHolder(h1, ptrHolder, m.active, fwd);
      heapAUsed := !heapAUsed;
      GcWorks(env, before, Heaps(), fwd);
      assert stack[..] == stack[..sp] + stack[sp..];
    }

    // ---------- fetching ----------

    method Fetch() returns (w: nat)
      requires ip + 4 <= |bytecode|
      modifies `ip
      ensures w == ReadU32(bytecode, old(ip)) && ip == old(ip) + 4
    {
      var a: nat, b: nat, c: nat, d: nat := bytecode[ip], bytecode[ip + 1], bytecode[ip + 2], bytecode[ip + 3];
      w := a * 0x100_0000 + b * 0x1_0000 + c * 0x100 + d;
      ip := ip + 4;
    }

    // The high half first.
    method Fetch64() returns (w: Word)
      requires ip + 8 <= |bytecode|
      modifies `ip
      ensures w == ReadU32(bytecode, old(ip)) * TWO32 + ReadU32(bytecode, old(ip) + 4) && ip == old(ip) + 8
    {
      var hi := Fetch();
      var lo := Fetch();
      w := hi * TWO32 + lo;
    }

    // ---------- instructions ----------

    method Arith(op: ArithOp, rd: Byte, ra: Byte, rb: Byte) returns (st: Status)
      requires Valid() && running && !CoreArith(env, op, rd, ra, rb, Core()).Undefined?
      modifies reg
      ensures Is(Lift(old(State()), CoreArith(env, op, rd, ra, rb, old(Core()))), st)
      ensures old(IsDouble(reg[ra]) && IsDouble(reg[rb])) ==>
                st == Running && reg[..] == old(reg[..])[rd := env.fpu.arith(op, old(reg[ra]), old(reg[rb]))]
    {
      hide HeapOk;
      var a, b := reg[ra], reg[rb];
      if IsDouble(a) && IsDouble(b) {
        reg[rd] := env.fpu.arith(op, a, b);
      } else if IsInt(a) && IsInt(b) {
        reg[rd] := EncodeInt(MathOp(op, DecodeInt(a), DecodeInt(b)));
      } else {
        return Thrown(BadOperands);
      }
      return Running;
    }

    method LoadIntoReg(rd: Byte) returns (st: Status)
      requires Valid() && running && !VmLoad(Image(), rd, State()).Undefined?
      modifies `ip, reg
      ensures Is(VmLoad(old(Image()), rd, old(State())), st)
    {
      hide HeapOk, ReadU32;
      var val := Fetch64();
      reg[rd] := val;
      return Running;
    }

    method Compare(ra: Byte, rb: Byte) returns (st: Status)
      requires Valid() && running
      modifies `jmpFlag
      ensures Is(Lift(old(State()), CoreCompare(env, ra, rb, old(Core()))), st)
    {
      hide HeapOk;
      var a, b := reg[ra], reg[rb];
      if IsDouble(a) && IsDouble(b) {
        var order := env.fpu.compare(a, b);
        jmpFlag := if order == Equal then 1 else if order == Less then -1 else if order == Greater then 2 else 0;
      } else if IsInt(a) && IsInt(b) {
        var da, db := DecodeInt(a), DecodeInt(b);
        jmpFlag := if da == db then 1 else if da < db then -1 else if da > db then 2 else 0;
      } else if IsBool(a) && IsBool(b) {
        jmpFlag := if DecodeBool(a) == DecodeBool(b) then 1 else 0;
      } else {
        return Thrown(BadOperands);
      }
      return Running;
    }

    // je, jne, jl, jg
    method Jump(cond: Cond) returns (st: Status)
      requires Valid() && running && !VmBranch(Image(), cond, State()).Undefined?
      modifies `ip
      ensures Is(VmBranch(old(Image()), cond, old(State())), st)
    {
      hide HeapOk, ReadU32;
      if Taken(cond, jmpFlag) {
        var target := Fetch();
        ip := target;
      } else {
        ip := ip + 4;
      }
      return Running;
    }

    // decode::push
    method PushWord(w: Word)
      requires Shape() && sp < STACK_SIZE
      modifies `sp, stack
      ensures stack[..] == old(stack[..])[old(sp) := w] && sp == old(sp) + 1
    {
      stack[sp] := w;
      sp := sp + 1;
    }

    // decode::pop
    method PopWord() returns (w: Word)
      requires Shape() && 0 < sp <= STACK_SIZE
      modifies `sp
      ensures sp == old(sp) - 1 && w == stack[sp]
    {
      sp := sp - 1;
      w := stack[sp];
    }

    method Call(a: Byte, b: Byte, c: Byte) returns (st: Status)
      requires Valid() && running && !VmCall(Image(), a * 0x1_0000 + b * 0x100 + c, State()).Undefined?
      modifies `ip, `sp, `fp, stack
      ensures Is(VmCall(old(Image()), a * 0x1_0000 + b * 0x100 + c, old(State())), st)
    {
      hide HeapOk, Used;
      var index := a * 0x1_0000 + b * 0x100 + c;
      var f := functionTable[index];
      PushWord(fp);
      PushWord(ip);
      fp := sp;
      sp := sp + f.frameSize;
      ip := f.entryIP;
      return Running;
    }

    method Ret() returns (st: Status)
      requires Valid() && running && !VmRet(State()).Undefined?
      modifies `ip, `sp, `fp
      ensures Is(VmRet(old(State())), st)
    {
      hide HeapOk, Used;
      sp := fp;
      ip := PopWord();
      fp := PopWord();
      return Running;
    }

    method Push(ra: Byte) returns (st: Status)
      requires Valid() && running && !VmPush(reg[ra], State()).Undefined?
      modifies `sp, stack
      ensures Is(VmPush(old(reg[ra]), old(State())), st)
    {
      hide HeapOk;
      PushWord(reg[ra]);
      return Running;
    }

    method Pop(rd: Byte) returns (st: Status)
      requires Valid() && running && !VmPop(rd, State()).Undefined?
      modifies `sp, reg
      ensures Is(VmPop(rd, old(State())), st)
    {
      hide HeapOk;
      var w := PopWord();
      reg[rd] := w;
      return Running;
    }

    method InsertIntoStack(a: Byte, b: Byte, rs: Byte) returns (st: Status)
      requires Valid() && running && !VmInsert(VmSpec.Slot(a, b), rs, State()).Undefined?
      modifies stack
      ensures Is(VmInsert(VmSpec.Slot(a, b), rs, old(State())), st)
    {
      hide HeapOk;
      stack[256 * a + b] := reg[rs];
      return Running;
    }

    method ReadFromStack(a: Byte, b: Byte, rd: Byte) returns (st: Status)
      requires Valid() && running && !VmRead(VmSpec.Slot(a, b), rd, State()).Undefined?
      modifies reg
      ensures Is(VmRead(VmSpec.Slot(a, b), rd, old(State())), st)
    {
      hide HeapOk;
      reg[rd] := stack[256 * a + b];
      return Running;
    }

    method Mov(rd: Byte, rs: Byte, flag: Byte) returns (st: Status)
      requires Valid() && running && !CoreMov(rd, rs, flag, Core()).Undefined?
      modifies reg
      ensures Is(Lift(old(State()), CoreMov(rd, rs, flag, old(Core()))), st)
      ensures st == Running && reg[..] == old(reg[..])[rd := old(reg[rs])]
    {
      hide HeapOk;
      reg[rd] := reg[rs];
      return Running;
    }

    // end(): int, double or six characters; anything else prints nothing.
    method Print(w: Word)
      modifies `out
      ensures out == old(out) + Show(w)
    {
      if IsInt(w) {
        out := out + [PrintInt(DecodeInt(w))];
      } else if IsDouble(w) {
        out := out + [PrintDouble(w)];
      } else if IsChar6(w) {
        out := out + [PrintChars(Payload(w))];
      }
    }

    method DebugReturn(ra: Byte) returns (st: Status)
      requires Valid() && running
      modifies `out
      ensures Is(Lift(old(State()), CorePrint(ra, old(Core()))), st)
    {
      hide HeapOk, Show;
      Print(reg[ra]);
      return Running;
    }

    method End(ra: Byte) returns (st: Status)
      requires Valid() && running
      modifies `out, `running, heapA, heapB
      ensures Is(Lift(old(State()), CoreEnd(ra, old(Core()))), st)
    {
      hide HeapOk, Show;
      Print(reg[ra]);
      running := false;
      heapA.FreeHeap();
      heapB.FreeHeap();
      EmptyHeapOk();
      return Halted;
    }

    // ---------- arrays ----------

    // The machine when heapAlloc starts: after a collection if one is due.
    ghost function Ready(): Outcome<Vm>
      reads this, reg, stack, heapA, heapB
      requires Shape()
    {
      if Trigger(Heaps(), heapA.max) then VmGc(env, State()) else Next(State())
    }

    // The address of a new object in the active heap; None: bad_alloc.
    method GcCollectedHeapAlloc(size: int, kind: Kind) returns (r: Option<nat>)
      requires Valid() && !Ready().Undefined? && (Ready().Next? ==> size >= 0 && GoodSize(Align(OBJ_HEADER + size)))
      modifies `heapAUsed, reg, stack, heapA, heapB
      ensures match old(Ready())
              case Next(v) =>
                (match PlaceIn(env, v, size, kind)
                 case Some((s, a)) => r == Some(a) && Shape() && State() == WithActive(v, s)
                 case None => r == None)
              case Throw(e) => r == None && e == BadAlloc
              case _ => false
      ensures r.Some? ==>
                (heapAUsed != old(heapAUsed) <==>
                   old(Active().totalAllocated) as real > 0.7 * (old(Active().max) as real))
    {
      DueAtSevenTenths();
      hide HeapOk, VmGc, Place, Trigger;
      var active := Active();
      if 10 * active.totalAllocated > 7 * active.max {
        GcDefined(env, State());
        var ok := CompactingGarbageCollect();
        if !ok {
          return None;
        }
        active := Active();
      }
      r := active.HeapAlloc(env.malloc, env.stale, Bases(Idle().View()), size, kind);
    }

    // ptr->length, ptr->type and the elements
    method FillArray(a: nat, length: nat, elemType: nat)
      requires Shape() && a in Active().mem
      modifies Active()`mem, Active()`loose
      ensures Shape()
      ensures State() == old(State()).(core := old(Core()).(mem := FilledIn(old(Heaps()), a, length, elemType)))
    {
      var h := Active();
      h.Store(a, FIELDS, FieldsWord(elemType, length));
      h.Clear(a, FIRST_ELEM, length);
    }

    method InitArray(dst: Byte, len: Byte, elemType: Byte) returns (st: Status)
      requires Valid() && running && !VmArray(env, dst, len, elemType, State(), Trigger(Heaps(), heapA.max)).Undefined?
      modifies `heapAUsed, reg, stack, heapA, heapB
      ensures Is(VmArray(env, dst, len, elemType, old(State()), old(Trigger(Heaps(), heapA.max))), st)
    {
      hide HeapOk, VmGc, Place, Trigger, VmArray, PlaceIn, Used, FilledIn, Filled, Cleared;
      ghost var ready := Ready();
      if ready.Next? {
        ReadyKeeps(env, State(), Trigger(Heaps(), heapA.max), ready.s);
      }
      var length := DecodeInt(reg[len]);
      LengthOk(env, dst, len, elemType, State(), Trigger(Heaps(), heapA.max), ready);
      var r := GcCollectedHeapAlloc(length * 8 + 8, ObjArray);
      if r == None {
        ArrayFails(env, dst, len, elemType, old(State()), old(Trigger(Heaps(), heapA.max)), ready);
        return Thrown(BadAlloc);
      }
      ghost var v, s := ready.s, Active().View();
      ArrayWorks(env, dst, len, elemType, old(State()), old(Trigger(Heaps(), heapA.max)), v, s, r.value);
      var typeTag := DecodeInt(reg[elemType]) % TWO32;
      FillArray(r.value, length, typeTag);
      reg[dst] := EncodePointer(r.value + 16);
      return Running;
    }

    // flag 0 writes reg[target] into the array, flag 1 reads the element into it.
    method MoveArray(target: Byte, address: Byte, index: Byte, flag: Byte) returns (st: Status)
      requires Valid() && running && flag <= 1
      requires flag == 0 ==> !CoreWrite(target, address, index, Core()).Undefined?
      requires flag == 1 ==> !CoreRead(target, address, index, Core()).Undefined?
      modifies reg, Active()`mem, Active()`loose
      ensures flag == 0 ==> Is(Lift(old(State()), CoreWrite(target, address, index, old(Core()))), st)
      ensures flag == 1 ==> Is(Lift(old(State()), CoreRead(target, address, index, old(Core()))), st)
    {
      hide HeapOk;
      var hdr, idx := HeaderOf(reg[address]), DecodeInt(reg[index]);
      var fields := Active().Load(hdr, FIELDS);
      if fields / TWO32 < idx {
        return Thrown(ArrayOutOfBounds);
      }
      if flag == 0 {
        ghost var before := Heaps();
        WriteKeeps(Core(), target, address, index);
        Active().Store(hdr, FIRST_ELEM + idx, reg[target]);
        assert Heaps() == StoreWord(before, hdr, FIRST_ELEM + idx, reg[target]);
      } else {
        reg[target] := Active().Load(hdr, FIRST_ELEM + idx);
      }
      return Running;
    }

    // ---------- dispatch ----------

    // Will the next allocation collect first?
    ghost predicate Due()
      reads this, heapA, heapB
    {
      Trigger(Heaps(), heapA.max)
    }

    // Exactly when what the heap in use has allocated is more than 0.7 times its maximum.
    lemma {:induction false} DueAtSevenTenths()
      requires Valid()
      ensures Due() <==> Active().totalAllocated as real > 0.7 * (Active().max as real)
      ensures Due() <==> 10 * Active().totalAllocated > 7 * Active().max
    {
      hide HeapOk, Used;
      SevenTenths(Heaps(), heapA.max);
      UsedOfMem(Active().View(), Space(Active().chunks, map[]));
    }

    method Execute(d: Decoded) returns (st: Status)
      requires Valid() && running && !VmSpec.Execute(env, Image(), d, State(), Due()).Undefined?
      modifies `ip, `sp, `fp, `jmpFlag, `running, `heapAUsed, `out, reg, stack, heapA, heapB
      ensures Is(VmSpec.Execute(env, old(Image()), d, old(State()), old(Due())), st)
    {
      hide HeapOk, Trigger, CoreArith, VmLoad, CoreCompare, VmBranch, VmCall, VmRet, VmPush, VmPop, CoreMov, VmInsert,
        VmRead, VmArray,
        CoreWrite, CoreRead, CoreEnd, CorePrint, Valid;
      match d.opcode
      case 0 => st := Arith(ArithOp.Add, d.ra, d.rb, d.rc);
      case 1 => st := Arith(ArithOp.Sub, d.ra, d.rb, d.rc);
      case 2 => st := Arith(ArithOp.Mul, d.ra, d.rb, d.rc);
      case 3 => st := Arith(ArithOp.Div, d.ra, d.rb, d.rc);
      case 5 => st := LoadIntoReg(d.ra);
      case 6 => st := Compare(d.ra, d.rb);
      case 8 => st := Jump(Eq);
      case 9 => st := Jump(Ne);
      case 10 => st := Jump(Lt);
      case 11 => st := Jump(Gt);
      case 12 => st := Call(d.ra, d.rb, d.rc);
      case 13 => st := Ret();
      case 14 => st := Push(d.ra);
      case 15 => st := Pop(d.ra);
      case 18 => st := Mov(d.ra, d.rb, d.rc);
      case 16 => st := InsertIntoStack(d.ra, d.rb, d.rc);
      case 17 => st := ReadFromStack(d.ra, d.rb, d.rc);
      case 19 => st := InitArray(d.ra, d.rb, d.rc);
      case 20 => st := MoveArray(d.ra, d.rb, d.rc, 0);
      case 21 => st := MoveArray(d.ra, d.rb, d.rc, 1);
      case 4 => st := End(d.ra);
      case 7 => st := DebugReturn(d.ra);
      case _ => st := Thrown(BadOpcode);
    }

    // One turn of the loop in run.
    method Step() returns (st: Status)
      requires Valid() && running && !VmStep(env, Image(), State(), Due()).Undefined?
      modifies `ip, `sp, `fp, `jmpFlag, `running, `heapAUsed, `out, reg, stack, heapA, heapB
      ensures Is(VmStep(env, old(Image()), old(State()), old(Due())), st)
      ensures heapA.max == 512 * 1024 * 1024 && old(Active().totalAllocated) >= 375809639 ==>
                Is(VmStep(env, old(Image()), old(State()), true), st)
      ensures heapA.max == 512 * 1024 * 1024 && old(Active().totalAllocated) <= 375809638 ==>
                Is(VmStep(env, old(Image()), old(State()), false), st)
    {
      hide HeapOk, Trigger, VmSpec.Execute, ReadU32;
      DueAtSevenTenths();
      var instruction := Fetch();
      st := Execute(Decode(instruction));
    }

    // At most n turns.
    method Run(n: nat) returns (st: Status)
      requires Valid() && running && !RunFor(env, Image(), State(), heapA.max, n).Undefined?
      modifies `ip, `sp, `fp, `jmpFlag, `running, `heapAUsed, `out, reg, stack, heapA, heapB
      ensures Is(RunFor(env, old(Image()), old(State()), heapA.max, n), st)
    {
      hide HeapOk, Trigger, VmStep;
      st := Running;
      var left := n;
      while running && left > 0
        invariant st == Running && Valid() && running
        invariant RunFor(env, Image(), State(), heapA.max, left) ==
                  RunFor(env, old(Image()), old(State()), heapA.max, n)
        decreases left
      {
        left := left - 1;
        st := Step();
        if st != Running {
          return;
        }
      }
    }

    // ---------- loading ----------

    // The bound check covers the first byte only.
    method FetchAtAddr(addr: nat) returns (r: Result<nat, Fault>)
      requires !Loading.FetchAtAddr(bytecode, addr).Undefined?
      ensures match Loading.FetchAtAddr(bytecode, addr)
              case Next(w) => r == Ok(w)
              case Throw(e) => r == Err(e)
              case _ => false
    {
      if addr >= |bytecode| {
        return Err(BadAddress);
      }
      var a: nat, b: nat, c: nat, d: nat := bytecode[addr], bytecode[addr + 1], bytecode[addr + 2], bytecode[addr + 3];
      return Ok(a * 0x100_0000 + b * 0x1_0000 + c * 0x100 + d);
    }

    method FetchFuncMetadata(addr: nat) returns (r: Result<FuncInfo, Fault>)
      requires !Loading.FetchFuncMetadata(bytecode, addr).Undefined?
      ensures match Loading.FetchFuncMetadata(bytecode, addr)
              case Next(f) => r == Ok(f)
              case Throw(e) => r == Err(e)
              case _ => false
    {
      hide Loading.FetchAtAddr;
      var entry := FetchAtAddr(addr);
      if entry.Err? {
        return Err(entry.error);
      }
      var frame := FetchAtAddr((addr + 4) % TWO32);
      if frame.Err? {
        return Err(frame.error);
      }
      return Ok(FuncInfo(entry.value, frame.value % 0x1_0000));
    }

    method LoadFunctionTable(h: Header) returns (r: Option<Fault>)
      requires Shape() && functionTable[..] == ZeroTable() && h.functionOffset < TWO32
      requires !LoadTable(bytecode, h.functionOffset, h.functionCount).Undefined?
      modifies functionTable
      ensures match LoadTable(bytecode, h.functionOffset, h.functionCount)
              case Next(t) => r == None && functionTable[..] == t
              case Throw(e) => r == Some(e)
              case _ => false
    {
      hide Loading.FetchFuncMetadata;
      var addr, i := h.functionOffset, 0;
      while i < h.functionCount
        invariant i <= h.functionCount && addr == (h.functionOffset + 8 * i) % TWO32
        invariant LoadTable(bytecode, h.functionOffset, i) == Next(functionTable[..])
      {
        TableSoFar(bytecode, h.functionOffset, i + 1, h.functionCount);
        var f := FetchFuncMetadata(addr);
        if f.Err? {
          return Some(f.error);
        }
        functionTable[i] := f.value;
        NextEntry(h.functionOffset, i);
        addr := (addr + 8) % TWO32;
        i := i + 1;
      }
      return None;
    }

    // Header, function table, and the machine ready at the first instruction.
    method Init() returns (r: Option<Fault>)
      requires Valid() && functionTable[..] == ZeroTable() &&
               State() == Initial(0).(core := Initial(0).core.(flag := 0))
      requires !LoadVm(bytecode).Undefined?
      modifies `ip, `jmpFlag, `running, functionTable
      ensures match LoadVm(bytecode)
              case Next((image, v)) => r == None && Valid() && running && Image() == image && State() == v
              case Throw(e) => r == Some(e)
              case _ => false
    {
      hide HeapOk, LoadTable;
      if |bytecode| < 32 {
        return Some(BadHeader);
      }
      var h := ReadHeader(bytecode);
      if h.magic != MAGIC || h.version != VERSION {
        return Some(BadHeader);
      }
      var bad := LoadFunctionTable(h);
      if bad.Some? {
        return bad;
      }
      ip := h.codeOffset;
      jmpFlag := 2;
      running := true;
      return None;
    }
  }

  // heapAlloc in the active heap, before the payload is written.
  ghost function PlaceIn(env: Env, v: Vm, size: nat, kind: Kind): Option<(Space, nat)> {
    var total, m := Align(OBJ_HEADER + size), v.core.mem;
    Place(env.malloc, Bases(m.idle), m.active,
          Blank(env.stale, m.loose, Spot(env.malloc, Bases(m.idle), m.active, total), total, kind))
  }

  ghost function WithActive(v: Vm, s: Space): Vm {
    v.(core := v.core.(mem := v.core.mem.(active := s)))
  }

  ghost predicate ReadyIs(env: Env, v: Vm, gc: bool, ready: Outcome<Vm>) {
    ready == if gc then VmGc(env, v) else Next(v)
  }

  lemma {:induction false} ReadyKeeps(env: Env, v: Vm, gc: bool, ready: Vm)
    requires ReadyIs(env, v, gc, Next(ready)) && HeapOk(v.core.mem)
    ensures HeapOk(ready.core.mem)
  {
    hide Gc, HeapOk;
    if gc {
      GcKeeps(env, v.core.mem, v.core.reg + v.stack[..v.sp]);
    }
  }

  lemma {:induction false} LengthOk(env: Env, rd: Byte, rlen: Byte, rty: Byte, v: Vm, gc: bool, ready: Outcome<Vm>)
    requires ReadyIs(env, v, gc, ready) && !VmArray(env, rd, rlen, rty, v, gc).Undefined?
    ensures !ready.Undefined?
    ensures var length := DecodeInt(v.core.reg[rlen]);
            ready.Next? ==>
              length >= 0 && Align(OBJ_HEADER + (length * 8 + 8)) == ArraySize(length) && GoodSize(ArraySize(length))
  {
    hide VmGc, NewArray;
    var length := DecodeInt(v.core.reg[rlen]);
    if ready.Next? {
      ArraySizeExact(length);
    }
  }

  lemma {:induction false} ArrayFails(env: Env, rd: Byte, rlen: Byte, rty: Byte, v: Vm, gc: bool, ready: Outcome<Vm>)
    requires ReadyIs(env, v, gc, ready) && !VmArray(env, rd, rlen, rty, v, gc).Undefined?
    requires ready == Throw(BadAlloc) ||
             (ready.Next? && DecodeInt(v.core.reg[rlen]) >= 0 &&
              PlaceIn(env, ready.s, DecodeInt(v.core.reg[rlen]) * 8 + 8, ObjArray) == None)
    ensures VmArray(env, rd, rlen, rty, v, gc) == Throw(BadAlloc)
  {
    hide VmGc, Place, Blank, NewObj, NewWords, ArraySize, Spot;
    LengthOk(env, rd, rlen, rty, v, gc, ready);
    if ready.Next? {
      var length, m := DecodeInt(v.core.reg[rlen]), ready.s.core.mem;
      var elemType := DecodeInt(ready.s.core.reg[rty]) % TWO32;
      var a := Spot(env.malloc, Bases(m.idle), m.active, ArraySize(length));
      NewObjSize(env, m, length, elemType);
      PlaceFill(env.malloc, Bases(m.idle), m.active, Blank(env.stale, m.loose, a, ArraySize(length), ObjArray),
                NewObj(NewWords(env.malloc, env.stale, m, length, elemType)));
    }
  }

  lemma {:induction false} NewObjSize(env: Env, m: Mem, length: nat, elemType: nat)
    ensures NewObj(NewWords(env.malloc, env.stale, m, length, elemType)).size == ArraySize(length)
  {
    hide ArraySize, NewWords;
  }

  // The fields stored and the elements cleared.
  ghost function Filled(mem: map<nat, Obj>, loose: map<nat, Word>, a: nat, length: nat, elemType: nat)
    : (map<nat, Obj>, map<nat, Word>)
    requires a in mem
  {
    var o := mem[a];
    if FIELDS < |o.payload| then
      Cleared(mem[a := o.(payload := o.payload[FIELDS := FieldsWord(elemType, length)])], loose, a, FIRST_ELEM, length)
    else Cleared(mem, loose[WordAddr(a, FIELDS) := FieldsWord(elemType, length)], a, FIRST_ELEM, length)
  }

  function ZeroedFrom(p: seq<Word>, from: nat, k: nat): (r: seq<Word>)
    ensures |r| == |p| && forall j :: 0 <= j < |p| ==> r[j] == if from <= j < from + k then 0 else p[j]
  {
    seq(|p|, j requires 0 <= j < |p| => if from <= j < from + k then 0 else p[j])
  }

  ghost function FilledIn(m: Mem, a: nat, length: nat, elemType: nat): Mem
    requires a in m.active.mem
  {
    var (mem, loose) := Filled(m.active.mem, m.loose, a, length, elemType);
    m.(active := Space(m.active.chunks, mem), loose := loose)
  }

  // Clearing k words inside the object.
  lemma {:induction false} ClearedInside(mem: map<nat, Obj>, loose: map<nat, Word>, a: nat, from: nat, k: nat)
    requires a in mem && from + k <= |mem[a].payload|
    ensures Cleared(mem, loose, a, from, k) ==
            (mem[a := mem[a].(payload := ZeroedFrom(mem[a].payload, from, k))], loose)
  {
    var p := mem[a].payload;
    if k == 0 {
      assert ZeroedFrom(p, from, 0) == p;
      assert mem[a := mem[a].(payload := p)] == mem;
    } else {
      ClearedInside(mem, loose, a, from, k - 1);
      var q := ZeroedFrom(p, from, k - 1);
      assert q[from + k - 1 := 0] == ZeroedFrom(p, from, k);
      var mem' := mem[a := mem[a].(payload := q)];
      assert mem'[a := mem[a].(payload := ZeroedFrom(p, from, k))] ==
             mem[a := mem[a].(payload := ZeroedFrom(p, from, k))];
    }
  }

  // Storing fields and elements of a blank object makes the new array.
  lemma {:induction false} FilledIs(stale: Stale, mem: map<nat, Obj>, loose: map<nat, Word>, a: nat, length: nat,
                                    elemType: nat)
    requires a in mem && mem[a] == Blank(stale, loose, a, ArraySize(length), ObjArray)
    ensures var ws := ArrayWords(Content(stale, loose, WordAddr(a, 0)), Content(stale, loose, WordAddr(a, 1)), length,
                                 elemType);
            Filled(mem, loose, a, length, elemType) == (mem[a := NewObj(ws)], Spill(loose, a, ws))
  {
    var ws := ArrayWords(Content(stale, loose, WordAddr(a, 0)), Content(stale, loose, WordAddr(a, 1)), length,
                         elemType);
    BlankIs(stale, loose, a, length);
    ArrayWordsMeet(Content(stale, loose, WordAddr(a, 0)), Content(stale, loose, WordAddr(a, 1)), length, elemType);
    hide Content, FieldsWord, ArraySize, Contents, Blank, ArrayWords, Cleared;
    if length >= 2 {
      FilledLong(mem, loose, a, length, elemType, ws);
    } else {
      FilledShort(mem, loose, a, length, elemType, ws);
    }
  }

  lemma {:induction false} BlankIs(stale: Stale, loose: map<nat, Word>, a: nat, length: nat)
    ensures var o := Blank(stale, loose, a, ArraySize(length), ObjArray);
            o.size == ArraySize(length) && o.kind == ObjArray && !o.marked && o.forwarded == 0 &&
            |o.payload| == length + 1 && o.payload[0] == Content(stale, loose, WordAddr(a, 0)) &&
            (length >= 1 ==> o.payload[1] == Content(stale, loose, WordAddr(a, 1)))
  {
    ArraySizeExact(length);
    hide ArraySize, Content;
  }

  lemma {:induction false} ArrayWordsMeet(w0: Word, w1: Word, length: nat, elemType: nat)
    ensures var ws := ArrayWords(w0, w1, length, elemType);
            ws[0] == w0 && ws[1] == w1 && ws[FIELDS] == FieldsWord(elemType, length) &&
            forall j :: FIRST_ELEM <= j < length + 3 ==> ws[j] == 0
  {
    hide FieldsWord;
  }

  // A blank array object, and all words of the array it becomes.
  ghost predicate BlankFor(o: Obj, length: nat, elemType: nat, ws: seq<Word>) {
    |ws| == length + 3 && ws[FIELDS] == FieldsWord(elemType, length) &&
    (forall j :: FIRST_ELEM <= j < length + 3 ==> ws[j] == 0) &&
    o.size == ArraySize(length) && o.kind == ObjArray && !o.marked && o.forwarded == 0 &&
    |o.payload| == length + 1 && o.payload[0] == ws[0] && (length >= 1 ==> o.payload[1] == ws[1])
  }

  lemma {:induction false} FilledLong(mem: map<nat, Obj>, loose: map<nat, Word>, a: nat, length: nat, elemType: nat,
                                      ws: seq<Word>)
    requires length >= 2 && a in mem && BlankFor(mem[a], length, elemType, ws)
    ensures Filled(mem, loose, a, length, elemType) == (mem[a := NewObj(ws)], Spill(loose, a, ws))
  {
    hide FieldsWord, ArraySize, Cleared;
    var p := mem[a].payload[FIELDS := ws[FIELDS]];
    var mem1 := mem[a := mem[a].(payload := p)];
    ClearedInside(mem1, loose, a, FIRST_ELEM, length - 2);
    assert ZeroedFrom(p, FIRST_ELEM, length - 2) == ws[..length + 1];
    assert mem1[a := NewObj(ws)] == mem[a := NewObj(ws)];
    ClearedTwo(mem1, loose, a, length, NewObj(ws));
  }

  lemma {:induction false} FilledShort(mem: map<nat, Obj>, loose: map<nat, Word>, a: nat, length: nat, elemType: nat,
                                       ws: seq<Word>)
    requires length < 2 && a in mem && BlankFor(mem[a], length, elemType, ws)
    ensures Filled(mem, loose, a, length, elemType) == (mem[a := NewObj(ws)], Spill(loose, a, ws))
  {
    hide FieldsWord, ArraySize;
    assert mem[a].payload == ws[..length + 1];
    assert mem[a := NewObj(ws)] == mem;
    var l := loose[WordAddr(a, FIELDS) := ws[FIELDS]];
    assert Cleared(mem, l, a, FIRST_ELEM, 0) == (mem, l);
  }

  // The last two words of an array lie behind it.
  lemma {:induction false} ClearedTwo(mem: map<nat, Obj>, loose: map<nat, Word>, a: nat, length: nat, o: Obj)
    requires a in mem && length >= 2 && |o.payload| == length + 1
    requires Cleared(mem, loose, a, FIRST_ELEM, length - 2) == (mem[a := o], loose)
    ensures Cleared(mem, loose, a, FIRST_ELEM, length) ==
            (mem[a := o], loose[WordAddr(a, length + 1) := 0][WordAddr(a, length + 2) := 0])
  {
    assert Cleared(mem, loose, a, FIRST_ELEM, length - 1) == (mem[a := o], loose[WordAddr(a, length + 1) := 0]);
  }

  // The new object filled in and its address boxed: what arrInit does from here on.
  lemma {:induction false} ArrayWorks(env: Env, rd: Byte, rlen: Byte, rty: Byte, v: Vm, gc: bool, ready: Vm, s: Space,
                                      a: nat)
    requires ReadyIs(env, v, gc, Next(ready)) && !VmArray(env, rd, rlen, rty, v, gc).Undefined?
    requires DecodeInt(v.core.reg[rlen]) >= 0
    requires PlaceIn(env, ready, DecodeInt(v.core.reg[rlen]) * 8 + 8, ObjArray) == Some((s, a))
    ensures a in s.mem
    ensures var length, elemType := DecodeInt(v.core.reg[rlen]), DecodeInt(ready.core.reg[rty]) % TWO32;
            var m := FilledIn(ready.core.mem.(active := s), a, length, elemType);
            VmArray(env, rd, rlen, rty, v, gc) == Next(ready.(core := SetReg(ready.core.(mem := m), rd, PointerTo(a))))
    ensures HeapOk(ready.core.mem) ==> HeapOk(VmArray(env, rd, rlen, rty, v, gc).s.core.mem)
  {
    hide VmGc, Place, HeapOk, Blank, NewObj, NewWords, ArraySize, Spot, FilledIn, Spill;
    LengthOk(env, rd, rlen, rty, v, gc, Next(ready));
    var length, m := DecodeInt(v.core.reg[rlen]), ready.core.mem;
    var elemType := DecodeInt(ready.core.reg[rty]) % TWO32;
    PlacedArray(env, m, length, elemType, s, a);
    if HeapOk(m) {
      NewArrayStepKeeps(env, ready.core, rd, length, rty);
    }
  }

  lemma {:induction false} PlacedArray(env: Env, m: Mem, length: nat, elemType: nat, s: Space, a: nat)
    requires Place(env.malloc, Bases(m.idle), m.active,
                   Blank(env.stale, m.loose, Spot(env.malloc, Bases(m.idle), m.active, ArraySize(length)),
                         ArraySize(length), ObjArray)) == Some((s, a))
    ensures a in s.mem
    ensures NewArray(env.malloc, env.stale, m, length, elemType) ==
              Some((FilledIn(m.(active := s), a, length, elemType), a))
  {
    var others, ws := Bases(m.idle), NewWords(env.malloc, env.stale, m, length, elemType);
    var b := Spot(env.malloc, others, m.active, ArraySize(length));
    var blank := Blank(env.stale, m.loose, b, ArraySize(length), ObjArray);
    NewObjSize(env, m, length, elemType);
    SpotIsPlace(env.malloc, others, m.active, blank);
    PlaceFill(env.malloc, others, m.active, blank, NewObj(ws));
    FilledIs(env.stale, s.mem, m.loose, a, length, elemType);
    hide Place, NewObj, ArraySize, Spot, Blank, Filled, ArrayWords, Spill;
  }

  lemma {:induction false} NextEntry(offset: nat, i: nat)
    ensures ((offset + 8 * i) % TWO32 + 8) % TWO32 == (offset + 8 * (i + 1)) % TWO32
  {
  }

  // A table that loads, or throws, was defined so far.
  lemma {:induction false} TableSoFar(bytes: seq<Byte>, offset: nat, i: nat, n: nat)
    requires i <= n && !LoadTable(bytes, offset, n).Undefined?
    ensures !LoadTable(bytes, offset, i).Undefined?
    ensures !LoadTable(bytes, offset, i).Next? ==> LoadTable(bytes, offset, n) == LoadTable(bytes, offset, i)
    decreases n - i
  {
    hide Loading.FetchFuncMetadata;
    if i < n {
      TableSoFar(bytes, offset, i, n - 1);
    }
  }

  lemma {:induction false} NotDone(slots: seq<Slot>, j: nat)
    requires NoRepeats(slots) && j < |slots|
    ensures slots[j] !in slots[..j] && slots[..j + 1] == slots[..j] + [slots[j]]
  {
  }

  lemma {:induction false} HeapParts(m: Mem)
    requires HeapOk(m)
    ensures SpaceOk(m.active) && m.idle == EMPTY && forall a :: a in Walk(m.active) ==> a in m.active.mem
    ensures forall a :: a in m.active.mem ==> !m.active.mem[a].marked && m.active.mem[a].forwarded == 0
  {
  }

  // Flags change neither the layout nor what is copied.
  lemma {:induction false} FlaggedWalk(m: Mem, marked: set<int>)
    requires HeapOk(m)
    ensures var f := Space(m.active.chunks, Flagged(m.active.mem, marked));
            SpaceOk(f) && Walk(f) == Walk(m.active) && (forall a :: a in Walk(f) ==> a in f.mem) &&
            forall a :: a in f.mem ==> (f.mem[a].marked <==> a in marked)
  {
    var s, f := m.active, Space(m.active.chunks, Flagged(m.active.mem, marked));
    WalkToFrame(s, f, |s.chunks|);
  }

  lemma {:induction false} MovesAreCollects(malloc: Malloc, m: Mem, flagged: Space, marked: set<int>)
    requires HeapOk(m) && flagged == Space(m.active.chunks, Flagged(m.active.mem, marked))
    ensures var r := Evacuates(malloc, flagged, marked, EMPTY);
            Collect(malloc, m, marked) == if r.None? then None else Some((Mem(r.value.0, EMPTY, map[]), r.value.1))
  {
    hide Evacuate;
    HeapParts(m);
    FlaggedWalk(m, marked);
    hide SpaceOk, Walk, HeapOk;
    forall a | a in Walk(m.active) ensures a in flagged.mem && Copy(m.active.mem[a]) == Copy(flagged.mem[a]) {
    }
    EvacuateSame(malloc, m.active, flagged, marked, Walk(m.active), EMPTY);
  }

  lemma {:induction false} StartPatching(regs: seq<Word>, live: seq<Word>, s: Space, marked: set<int>,
                                         mem: map<nat, Obj>, fwd: map<nat, nat>)
    requires mem == Forwarded(Flagged(s.mem, marked), fwd) && forall a :: a in fwd ==> a in s.mem
    ensures Patched(regs, live, mem, regs, live, s.mem, fwd, [])
  {
    hide Patched, PointerTo;
    forall a | a in s.mem
      ensures a in mem && Scanned(mem[a]) == Scanned(s.mem[a])
      ensures a in fwd ==> mem[a].forwarded == PointerTo(fwd[a])
    {
      ForwardedAt(Flagged(s.mem, marked), fwd, a);
      FlaggedAt(s.mem, marked, a);
    }
    PatchNothing(regs, live, mem, s.mem, fwd);
  }

  lemma {:induction false} GcDefined(env: Env, v: Vm)
    requires !VmGc(env, v).Undefined?
    ensures v.sp <= STACK_SIZE && Collectable(v.core.mem, v.core.reg + v.stack[..v.sp])
  {
    hide Collect, Marked;
  }

  lemma {:induction false} GcFails(env: Env, v: Vm)
    requires v.sp <= STACK_SIZE && Collectable(v.core.mem, v.core.reg + v.stack[..v.sp])
    requires Collect(env.malloc, v.core.mem, Marked(v.core.reg + v.stack[..v.sp], v.core.mem.active)) == None
    ensures VmGc(env, v) == Throw(BadAlloc)
  {
    hide Collect, Marked;
  }

  lemma {:induction false} GcWorks(env: Env, v: Vm, m: Mem, fwd: map<nat, nat>)
    requires v.sp <= STACK_SIZE && Collectable(v.core.mem, v.core.reg + v.stack[..v.sp])
    requires Collect(env.malloc, v.core.mem, Marked(v.core.reg + v.stack[..v.sp], v.core.mem.active)) == Some((m, fwd))
    ensures VmGc(env, v) == Next(v.(core := v.core.(reg := PatchAll(fwd, v.core.reg), mem := m),
                                    stack := PatchAll(fwd, v.stack[..v.sp]) + v.stack[v.sp..]))
  {
    hide Collect, Marked;
  }

  // After visiting the objects `seen`, the to-space and the forwarding map are these.
  ghost predicate Evacuating(malloc: Malloc, from: Space, marked: set<int>, seen: seq<nat>, start: Space, to: Space,
                             fwd: map<nat, nat>) {
    (forall a :: a in seen ==> a in from.mem) && Evacuate(malloc, from, marked, seen, start) == Some((to, fwd))
  }

  // The whole space evacuated; None when memory is exhausted.
  ghost function Evacuates(malloc: Malloc, from: Space, marked: set<int>, start: Space)
    : Option<(Space, map<nat, nat>)>
  {
    WalkFindsObjects(from, |from.chunks|);
    Evacuate(malloc, from, marked, Walk(from), start)
  }

  lemma {:induction false} EvacuateNothing(malloc: Malloc, from: Space, marked: set<int>, start: Space)
    ensures Evacuating(malloc, from, marked, [], start, start, map[])
  {
  }

  lemma {:induction false} EvacuatesAll(malloc: Malloc, from: Space, marked: set<int>, start: Space, to: Space,
                                        fwd: map<nat, nat>)
    requires Evacuating(malloc, from, marked, Walk(from), start, to, fwd)
    ensures Evacuates(malloc, from, marked, start) == Some((to, fwd))
  {
    hide Evacuate;
  }

  lemma {:induction false} EvacuatesFails(malloc: Malloc, from: Space, marked: set<int>, seen: seq<nat>, start: Space)
    requires (forall b :: b in seen ==> b in from.mem) && Evacuate(malloc, from, marked, seen, start) == None &&
             seen <= Walk(from)
    ensures Evacuates(malloc, from, marked, start) == None
  {
    WalkFindsObjects(from, |from.chunks|);
    assert Walk(from)[..|seen|] == seen;
    EvacuateFails(malloc, from, marked, Walk(from), |seen|, start);
  }

  lemma {:induction false} SkipUnmarked(malloc: Malloc, from: Space, marked: set<int>, seen: seq<nat>, a: nat,
                                        start: Space, to: Space, fwd: map<nat, nat>)
    requires Evacuating(malloc, from, marked, seen, start, to, fwd) && a in from.mem && a !in marked
    ensures Evacuating(malloc, from, marked, seen + [a], start, to, fwd)
  {
    hide Evacuate;
    EvacuateSnoc(malloc, from, marked, seen, a, start);
  }

  lemma {:induction false} ForwardedAt(mem: map<nat, Obj>, fwd: map<nat, nat>, a: nat)
    requires a in mem
    ensures a in Forwarded(mem, fwd)
    ensures var o, p := mem[a], Forwarded(mem, fwd)[a];
            p.size == o.size && p.kind == o.kind && p.marked == o.marked && p.payload == o.payload
    ensures a in fwd ==> Forwarded(mem, fwd)[a].forwarded == PointerTo(fwd[a])
  {
  }

  lemma {:induction false} SameBases(s: Space, t: Space)
    requires s.chunks == t.chunks
    ensures Bases(s) == Bases(t)
  {
  }

  lemma {:induction false} ChunkIsOk(s: Space, k: nat)
    requires SpaceOk(s) && k < |s.chunks|
    ensures Parses(s.mem, s.chunks[k].base, 0, s.chunks[k].used)
    ensures WalkTo(s, k + 1) == WalkTo(s, k) + WalkChunk(s.mem, s.chunks[k].base, 0, s.chunks[k].used)
  {
    assert ChunkOk(s, s.chunks[k]);
  }

  lemma {:induction false} WalkToPrefix(s: Space, k: nat, n: nat)
    requires k <= n <= |s.chunks|
    ensures WalkTo(s, k) <= WalkTo(s, n)
  {
    if k < n {
      WalkToPrefix(s, k, n - 1);
    }
  }

  lemma {:induction false} NextSeen(s: Space, k: nat, seen: seq<nat>, a: nat, rest: seq<nat>)
    requires k < |s.chunks| && seen + ([a] + rest) == WalkTo(s, k + 1)
    ensures seen + [a] <= Walk(s)
  {
    hide WalkTo;
    WalkToPrefix(s, k + 1, |s.chunks|);
    assert seen + ([a] + rest) == seen + [a] + rest;
  }

  ghost predicate ElementsKnown(mem: map<nat, Obj>, a: nat) {
    a in mem && forall b :: b in Named(Scanned(mem[a])) ==> b in mem
  }

  lemma {:induction false} MarkNobody(m0: map<nat, Obj>, before: set<int>, objects: seq<nat>)
    requires forall a :: a in objects ==> a in m0
    ensures Flagged(m0, before) == Flagged(m0, before + NamedBy(m0, objects, 0))
  {
    assert before + NamedBy(m0, objects, 0) == before;
  }

  lemma {:induction false} MarkArray(m0: map<nat, Obj>, before: set<int>, objects: seq<nat>, k: nat)
    requires (forall a :: a in objects ==> a in m0 && ElementsKnown(m0, a)) && k < |objects|
    ensures var a, named := objects[k], before + NamedBy(m0, objects, k);
            before + NamedBy(m0, objects, k + 1) == named + Named(Scanned(m0[a])) &&
            forall b :: b in Named(Scanned(m0[a])) ==> b in m0
  {
    hide Named, Scanned;
    assert ElementsKnown(m0, objects[k]);
  }

  // Live roots: everything that will be marked is an object.
  lemma {:induction false} RootsKnown(regs: seq<Word>, live: seq<Word>, s: Space)
    requires SpaceOk(s) && RootsLive(regs + live, s)
    ensures forall a :: a in Named(regs) || a in Named(live) ==> a in s.mem
    ensures forall a :: a in Walk(s) ==> a in s.mem && ElementsKnown(s.mem, a)
    ensures {} + Named(regs) + Named(live) + NamedBy(s.mem, Walk(s), |Walk(s)|) == Marked(regs + live, s)
  {
    WalkExact(s);
    NamedByAll(s);
    NamedJoin(regs, live);
    hide Named, ElementNamed, SpaceOk, Walk, Scanned, NamedBy;
    forall a | a in Walk(s) ensures ElementsKnown(s.mem, a) {
      forall b | b in Named(Scanned(s.mem[a])) ensures b in s.mem {
        ElementInNamed(s, a, b);
      }
    }
  }

  lemma {:induction false} MarkNone(m0: map<nat, Obj>, before: set<int>, ws: seq<Word>)
    ensures Flagged(m0, before) == Flagged(m0, before + Named(ws[..0]))
  {
    assert before + Named(ws[..0]) == before;
  }

  lemma {:induction false} NamedWord(ws: seq<Word>, k: nat)
    requires k < |ws|
    ensures IsPointer(ws[k]) ==> HeaderOf(ws[k]) in Named(ws)
  {
  }

  lemma {:induction false} MarkStep(m0: map<nat, Obj>, before: set<int>, ws: seq<Word>, k: nat)
    requires k < |ws| && (IsPointer(ws[k]) ==> HeaderOf(ws[k]) in m0)
    ensures var m, x := Flagged(m0, before + Named(ws[..k])), HeaderOf(ws[k]);
            IsPointer(ws[k]) ==> x in m && Flagged(m0, before + Named(ws[..k + 1])) == m[x := m[x].(marked := true)]
    ensures !IsPointer(ws[k]) ==> Flagged(m0, before + Named(ws[..k + 1])) == Flagged(m0, before + Named(ws[..k]))
  {
    hide IsPointer, HeaderOf, Named, Flagged;
    NamedSnoc(ws, k);
    var named := before + Named(ws[..k]);
    if IsPointer(ws[k]) {
      FlagOne(m0, named, HeaderOf(ws[k]));
      assert before + Named(ws[..k + 1]) == named + {HeaderOf(ws[k])};
    } else {
      assert before + Named(ws[..k + 1]) == named;
    }
  }

  lemma {:induction false} FlaggedAt(m0: map<nat, Obj>, named: set<int>, a: nat)
    requires a in m0
    ensures a in Flagged(m0, named) && Flagged(m0, named)[a].payload == m0[a].payload &&
            Flagged(m0, named)[a].size == m0[a].size
    ensures Traced(Flagged(m0, named)[a]) == Traced(m0[a]) && Scanned(Flagged(m0, named)[a]) == Scanned(m0[a])
  {
  }

  lemma {:induction false} NothingScanned(m0: map<nat, Obj>, named: set<int>, a: nat)
    requires a in m0
    ensures !Traced(m0[a]) ==>
              named + Named(Scanned(m0[a])) == named && WordSlots(InObject(a), Scanned(m0[a]), |Scanned(m0[a])|) == []
  {
  }
}
