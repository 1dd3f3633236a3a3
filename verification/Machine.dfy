// The parts of execution that touch only registers, flag, output and heap
// (src/vm/execution.h, src/vm/Heap.cpp:152-171).  The byte-level machine and the reference
// machine below share them; they differ in how code, calls and the stack are represented.
module Machine {
  import opened Words
  import opened Wrappers
  import opened Bytes
  import opened Isa
  import opened Literals
  import opened Space
  import opened Collector
  import opened HeapOps

  // ---------- the environment ----------

  datatype Order = Less | Equal | Greater | Unordered

  datatype Doubles = Doubles(arith: (ArithOp, Word, Word) -> Word, compare: (Word, Word) -> Order)

  predicate FloatResult(f: Doubles, op: ArithOp, a: Word, b: Word) {
    IsDouble(a) && IsDouble(b) ==> FloatPattern(f.arith(op, a, b))
  }

  ghost predicate GivesFloats(f: Doubles) {
    forall op: ArithOp, a: Word, b: Word :: FloatResult(f, op, a, b)
  }

  // Double arithmetic is left open, except that finite operands give a finite number, an
  // infinity or the quiet NaN without payload (IEEE 754-2019, sections 6.2 and 7).
  type Fpu = f: Doubles | GivesFloats(f)
    ghost witness Doubles((op: ArithOp, a: Word, b: Word) => 0, (a: Word, b: Word) => Unordered)

  // The allocator, what handed-out memory holds before anything is stored there, and double
  // operations.
  datatype Env = Env(malloc: Malloc, stale: Stale, fpu: Fpu)

  // ---------- results ----------

  // The exceptions the source throws.
  datatype Fault = BadOperands | BadOpcode | ArrayOutOfBounds | BadAlloc | BadHeader | BadAddress

  // Undefined: the C++ behaviour is undefined (or, in the reference machine, the program
  // leaves the discipline the theorem is about).
  datatype Outcome<+S> = Next(s: S) | Halt(s: S) | Throw(e: Fault) | Undefined

  datatype Printed = PrintInt(n: int) | PrintDouble(w: Word) | PrintChars(payload: nat)

  type Regs = r: seq<Word> | |r| == 256 witness ZeroWords(256)

  datatype Core = Core(reg: Regs, flag: int, out: seq<Printed>, mem: Mem)

  function SetReg(c: Core, k: Byte, w: Word): Core {
    c.(reg := c.reg[k := w])
  }

  // ---------- arithmetic and comparison ----------

  function ArithWords(env: Env, op: ArithOp, a: Word, b: Word): Outcome<Word> {
    if IsDouble(a) && IsDouble(b) then Next(env.fpu.arith(op, a, b))
    else if IsInt(a) && IsInt(b) then
      var r := IntOp(op, a, b);
      if r.Some? then Next(r.value) else Undefined
    else Throw(BadOperands)
  }

  function CoreArith(env: Env, op: ArithOp, rd: Byte, ra: Byte, rb: Byte, c: Core): Outcome<Core> {
    match ArithWords(env, op, c.reg[ra], c.reg[rb])
    case Next(w) => Next(SetReg(c, rd, w))
    case Halt(_) => Undefined
    case Throw(e) => Throw(e)
    case Undefined => Undefined
  }

  const FLAG_EQUAL: int := 1
  const FLAG_LESS: int := -1
  const FLAG_GREATER: int := 2
  const FLAG_OTHER: int := 0

  function CompareWords(env: Env, a: Word, b: Word): Outcome<int> {
    if IsDouble(a) && IsDouble(b) then
      Next(match env.fpu.compare(a, b)
           case Equal => FLAG_EQUAL
           case Less => FLAG_LESS
           case Greater => FLAG_GREATER
           case Unordered => FLAG_OTHER)
    else if IsInt(a) && IsInt(b) then
      var (x, y) := (DecodeInt(a), DecodeInt(b));
      Next(if x == y then FLAG_EQUAL else if x < y then FLAG_LESS else FLAG_GREATER)
    else if IsBool(a) && IsBool(b) then
      Next(if DecodeBool(a) == DecodeBool(b) then FLAG_EQUAL else FLAG_OTHER)
    else Throw(BadOperands)
  }

  function CoreCompare(env: Env, ra: Byte, rb: Byte, c: Core): Outcome<Core> {
    match CompareWords(env, c.reg[ra], c.reg[rb])
    case Next(f) => Next(c.(flag := f))
    case Halt(_) => Undefined
    case Throw(e) => Throw(e)
    case Undefined => Undefined
  }

  predicate Taken(cond: Cond, flag: int) {
    match cond
    case Eq => flag == FLAG_EQUAL
    case Ne => flag != FLAG_EQUAL
    case Lt => flag == FLAG_LESS
    case Gt => flag == FLAG_GREATER
  }

  // Flags 1 to 3 dereference a boxed word as a machine address.
  function CoreMov(rd: Byte, rs: Byte, flag: Byte, c: Core): Outcome<Core> {
    if 1 <= flag <= 3 then Undefined else Next(SetReg(c, rd, c.reg[rs]))
  }

  // ---------- output ----------

  // Bools, pointers and null print nothing.
  function Show(w: Word): seq<Printed> {
    if IsInt(w) then [PrintInt(DecodeInt(w))]
    else if IsDouble(w) then [PrintDouble(w)]
    else if IsChar6(w) then [PrintChars(Payload(w))]
    else []
  }

  function CorePrint(r: Byte, c: Core): Outcome<Core> {
    Next(c.(out := c.out + Show(c.reg[r])))
  }

  // Print, stop, free both heaps.
  function CoreEnd(r: Byte, c: Core): Outcome<Core> {
    Halt(c.(out := c.out + Show(c.reg[r]), mem := NO_HEAP))
  }

  // ---------- arrays ----------

  // The object and the payload word an array access goes to.
  function Locate(m: Mem, arr: Word, idx: Word): Outcome<(nat, nat)> {
    var (a, i) := (HeaderOf(arr), DecodeInt(idx));
    if a !in m.active.mem || m.active.mem[a].kind != ObjArray then Undefined
    else
      var fields := ReadWord(m, a, FIELDS);
      if fields.None? then Undefined
      else if fields.value / TWO32 < i then Throw(ArrayOutOfBounds)
      else if i < 0 then Undefined
      else Next((a, FIRST_ELEM + i))
  }

  // Undefined where the word belongs to another object or lies past the chunk.
  function CoreWrite(rs: Byte, rarr: Byte, ridx: Byte, c: Core): Outcome<Core> {
    match Locate(c.mem, c.reg[rarr], c.reg[ridx])
    case Next((a, j)) =>
      if a in c.mem.active.mem && Reachable(c.mem, a, j) then Next(c.(mem := StoreWord(c.mem, a, j, c.reg[rs])))
      else Undefined
    case Halt(_) => Undefined
    case Throw(e) => Throw(e)
    case Undefined => Undefined
  }

  // Undefined, besides, where nothing was ever stored.
  function CoreRead(rd: Byte, rarr: Byte, ridx: Byte, c: Core): Outcome<Core> {
    match Locate(c.mem, c.reg[rarr], c.reg[ridx])
    case Next((a, j)) =>
      if a in c.mem.active.mem && ReadWord(c.mem, a, j).Some? then
        Next(SetReg(c, rd, ReadWord(c.mem, a, j).value))
      else Undefined
    case Halt(_) => Undefined
    case Throw(e) => Throw(e)
    case Undefined => Undefined
  }

  // initArray once a collection has happened or not: `length` was read before it, the
  // element type is read after it.
  function CoreNewArray(env: Env, rd: Byte, length: int, rty: Byte, c: Core): Outcome<Core> {
    if length < 0 || ArraySize(length) > CHUNK_SIZE then Undefined
    else
      var r := NewArray(env.malloc, env.stale, c.mem, length, DecodeInt(c.reg[rty]) % TWO32);
      if r.None? then Throw(BadAlloc)
      else Next(SetReg(c.(mem := r.value.0), rd, PointerTo(r.value.1)))
  }

  // Tracing stays inside the objects, and everything it marks is an object.
  ghost predicate Collectable(m: Mem, roots: seq<Word>) {
    RootsLive(roots, m.active) && forall a :: a in m.active.mem ==> !Overruns(m.active.mem[a])
  }

  // One collection for the given roots: the new heap and the forwarding map.
  function Gc(env: Env, m: Mem, roots: seq<Word>): Outcome<(Mem, map<nat, nat>)> {
    if exists a :: a in Marked(roots, m.active) && a !in m.active.mem then Undefined
    else if exists a :: a in m.active.mem && Overruns(m.active.mem[a]) then Undefined
    else
      var r := Collect(env.malloc, m, Marked(roots, m.active));
      if r.None? then Throw(BadAlloc) else Next(r.value)
  }

  // It is defined exactly when every pointer among the roots, and every word that tracing goes
  // through and takes for one, names an object, and tracing stays inside the objects.
  lemma {:induction false} CollectionDefined(env: Env, m: Mem, roots: seq<Word>)
    ensures Gc(env, m, roots) != Undefined <==>
              (forall k :: 0 <= k < |roots| && IsPointer(roots[k]) ==> HeaderOf(roots[k]) in m.active.mem) &&
              (forall a :: a in m.active.mem ==> !Overruns(m.active.mem[a]) && NamesLive(m, Scanned(m.active.mem[a])))
  {
    hide HeaderOf, IsPointer, Scanned, Overruns, Collect;
    var s := m.active;
    forall k | 0 <= k < |roots| && IsPointer(roots[k]) ensures HeaderOf(roots[k]) in Marked(roots, s) {
    }
    forall a, i | a in s.mem && 0 <= i < |Scanned(s.mem[a])| && IsPointer(Scanned(s.mem[a])[i])
      ensures HeaderOf(Scanned(s.mem[a])[i]) in Marked(roots, s)
    {
    }
  }

  ghost predicate NamesLive(m: Mem, ws: seq<Word>) {
    forall i :: 0 <= i < |ws| && IsPointer(ws[i]) ==> HeaderOf(ws[i]) in m.active.mem
  }

  // heapAlloc is preceded by a collection when more than 70% of `max` is in use.
  predicate Trigger(m: Mem, max: nat) {
    10 * Used(m.active) > 7 * max
  }

  // That is, as the source computes it, of the maximum times 0.7.
  lemma {:induction false} SevenTenths(m: Mem, max: nat)
    ensures Trigger(m, max) <==> Used(m.active) as real > 0.7 * (max as real)
  {
    hide Used;
    assert Trigger(m, max) <==> (10 * Used(m.active)) as real > (7 * max) as real;
  }

  // ---------- the heap invariant is kept ----------

  // On roots that are all live, which is when it is defined, a collection compacts the heap.
  lemma {:induction false} GcKeeps(env: Env, m: Mem, roots: seq<Word>)
    requires HeapOk(m) && Gc(env, m, roots).Next?
    ensures var (m', fwd) := Gc(env, m, roots).s;
            HeapOk(m') && Compacted(m.active, Marked(roots, m.active), m'.active, fwd)
  {
    CollectOk(env.malloc, m, Marked(roots, m.active));
    CollectKeeps(env.malloc, m, Marked(roots, m.active));
  }

  lemma {:induction false} LocatedObject(m: Mem, arr: Word, idx: Word)
    requires Locate(m, arr, idx).Next?
    ensures var (a, j) := Locate(m, arr, idx).s;
            a == HeaderOf(arr) && a in m.active.mem && m.active.mem[a].kind == ObjArray && j >= FIRST_ELEM
  {
    hide HeaderOf, DecodeInt, ReadWord;
  }

  lemma {:induction false} WriteKeeps(c: Core, rs: Byte, rarr: Byte, ridx: Byte)
    requires HeapOk(c.mem) && CoreWrite(rs, rarr, ridx, c).Next?
    ensures HeapOk(CoreWrite(rs, rarr, ridx, c).s.mem)
  {
    hide HeapOk, Locate, Reachable, StoreWord;
    LocatedObject(c.mem, c.reg[rarr], c.reg[ridx]);
    var (a, j) := Locate(c.mem, c.reg[rarr], c.reg[ridx]).s;
    StoreKeeps(c.mem, a, j, c.reg[rs]);
  }

  lemma {:induction false} NewArrayStepKeeps(env: Env, c: Core, rd: Byte, length: int, rty: Byte)
    requires HeapOk(c.mem) && CoreNewArray(env, rd, length, rty, c).Next?
    ensures HeapOk(CoreNewArray(env, rd, length, rty, c).s.mem)
  {
    hide HeapOk, NewArray, ArraySize;
    NewArrayKeeps(env.malloc, env.stale, c.mem, length, DecodeInt(c.reg[rty]) % TWO32);
  }
}
