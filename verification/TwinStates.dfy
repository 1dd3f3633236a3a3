// Two states of the reference machine that differ only in the addresses inside pointers, and in
// what no program can get at: twins.  A step keeps twins twins, whichever of the two collects.
//
// That is so for tame programs: array operands carry the expected tags, no pointer is stored in
// an array (elements are not patched), accesses stay inside the array's object (what lies behind
// it is not moved), and no pointer left above sp is read or becomes part of a called function's
// frame.
module TwinStates {
  import opened Words
  import opened Wrappers
  import opened Bytes
  import opened Isa
  import opened Literals
  import opened Assembly
  import opened Space
  import opened Collector
  import opened HeapOps
  import opened Tracing
  import opened Machine
  import opened VmSpec
  import opened Reference
  import opened Simulation

  // ---------- tame programs ----------

  predicate TameOp(m: Mnemonic, ra: Byte, rb: Byte, rc: Byte, s: Ref) {
    var r := s.core.reg;
    match m
    case Arr => IsInt(r[rb]) && IsInt(r[rc])
    case ArrIns => !IsPointer(r[ra]) && IsPointer(r[rb]) && IsInt(r[rc]) && TameAccess(s.core.mem, r[rb], r[rc])
    case ArrRead => IsPointer(r[rb]) && IsInt(r[rc]) && TameAccess(s.core.mem, r[rb], r[rc])
    case Read => s.sp <= Slot(ra, rb) < STACK_SIZE ==> !IsPointer(CellWord(s.stack[Slot(ra, rb)]))
    case _ => true
  }

  // The array's fields lie in its object, and so does the element, or the index is too large.
  predicate TameAccess(m: Mem, arr: Word, idx: Word) {
    HeaderOf(arr) in m.active.mem ==>
      var ws := m.active.mem[HeaderOf(arr)].payload;
      |ws| > FIELDS && (FIRST_ELEM + DecodeInt(idx) < |ws| || ws[FIELDS] / TWO32 < DecodeInt(idx))
  }

  // A frame of n cells lies on the stack, and no pointer is left in them.
  predicate TameFrame(s: Ref, n: nat) {
    s.sp + 2 + n <= STACK_SIZE && forall k :: s.sp + 2 <= k < s.sp + 2 + n ==> !IsPointer(CellWord(s.stack[k]))
  }

  predicate TameInstr(c: Code, i: Instr<nat>, s: Ref) {
    match i
    case Op(m, ra, rb, rc) => TameOp(m, ra, rb, rc, s)
    case Load(_, imm) => !IsPointer(imm)
    case Call(idx) =>
      idx < |c.entries| && s.sp + 2 <= STACK_SIZE ==> TameFrame(s, c.entries[idx].frameSize % 0x1_0000)
    case Branch(_, _) => true
  }

  // The next instruction is used as the theorem asks.
  predicate Tame(c: Code, s: Ref) {
    s.pc < |c.instrs| ==> TameInstr(c, c.instrs[s.pc], s)
  }

  // ---------- twins ----------

  // rho takes an object of the first heap to its counterpart in the second.
  ghost predicate WordTwin(rho: map<nat, nat>, w: Word, v: Word) {
    if IsPointer(w) then
      HeaderOf(w) in rho && w == PointerTo(HeaderOf(w)) && v == PointerTo(rho[HeaderOf(w)])
    else v == w
  }

  ghost predicate CellTwin(rho: map<nat, nat>, c: Cell, d: Cell) {
    c.Val? == d.Val? && (c.Val? ==> WordTwin(rho, c.w, d.w))
  }

  predicate NoPointers(ws: seq<Word>) {
    forall i :: 0 <= i < |ws| ==> !IsPointer(ws[i])
  }

  // What a program can get at: from the fields on.
  function Visible(o: Obj): seq<Word> {
    if |o.payload| <= FIELDS then [] else o.payload[FIELDS..]
  }

  ghost predicate ObjTwin(o: Obj, p: Obj) {
    o.kind == p.kind && o.size == p.size && |o.payload| == |p.payload| && Visible(o) == Visible(p)
  }

  // No pointer where a program could get at it.
  ghost predicate QuietHeap(m: Mem) {
    HeapOk(m) && forall a :: a in m.active.mem ==> NoPointers(Visible(m.active.mem[a]))
  }

  // No array is traced, and none can come to be by what lies behind the objects.
  ghost predicate Calm(m: Mem) {
    TightLoose(m) && NoneTraced(m)
  }

  ghost predicate HeapTwin(rho: map<nat, nat>, s: Space, t: Space) {
    Injective(rho) && forall a :: a in rho ==> a in s.mem && rho[a] in t.mem && ObjTwin(s.mem[a], t.mem[rho[a]])
  }

  ghost predicate RegsTwin(rho: map<nat, nat>, r: Regs, q: Regs) {
    forall k {:trigger r[k]} {:trigger q[k]} :: 0 <= k < 256 ==> WordTwin(rho, r[k], q[k])
  }

  ghost predicate CoreTwin(rho: map<nat, nat>, c: Core, d: Core) {
    c.flag == d.flag && c.out == d.out && RegsTwin(rho, c.reg, d.reg) &&
    QuietHeap(c.mem) && QuietHeap(d.mem) && HeapTwin(rho, c.mem.active, d.mem.active)
  }

  ghost predicate StackTwin(rho: map<nat, nat>, s: Cells, t: Cells, sp: nat) {
    forall k {:trigger s[k]} {:trigger t[k]} :: 0 <= k < sp && k < 4096 ==> CellTwin(rho, s[k], t[k])
  }

  // On the whole stack, above sp as well: pointers stand where pointers stand, and all else is
  // equal.
  predicate CellLoose(c: Cell, d: Cell) {
    c.Val? == d.Val? && (c.Val? ==> IsPointer(c.w) == IsPointer(d.w) && (IsPointer(c.w) || d.w == c.w))
  }

  ghost predicate StackLoose(s: Cells, t: Cells) {
    forall k {:trigger s[k]} {:trigger t[k]} :: 0 <= k < 4096 ==> CellLoose(s[k], t[k])
  }

  // Each frame's base is two above the caller's sp, which is at or above the caller's base.
  predicate FramesOk(frames: seq<Frame>, fp: nat) {
    if frames == [] then fp == 0
    else
      var f := frames[|frames| - 1];
      fp == f.sp + 2 && f.fp <= f.sp && FramesOk(frames[..|frames| - 1], f.fp)
  }

  // Same position, frames, flag and output; registers and live stack equal up to rho.
  ghost predicate TwinBy(rho: map<nat, nat>, s: Ref, t: Ref) {
    s.pc == t.pc && s.sp == t.sp && s.fp == t.fp && s.frames == t.frames &&
    s.fp <= s.sp <= STACK_SIZE && FramesOk(s.frames, s.fp) &&
    CoreTwin(rho, s.core, t.core) && StackTwin(rho, s.stack, t.stack, s.sp) && StackLoose(s.stack, t.stack)
  }

  ghost predicate Twins(s: Ref, t: Ref) {
    exists rho :: TwinBy(rho, s, t)
  }

  // Outcomes are the same up to addresses; running out of memory is outside the claim.
  ghost predicate SameOutcome(r: Outcome<Ref>, q: Outcome<Ref>) {
    r == Throw(BadAlloc) || q == Throw(BadAlloc) ||
    match r
    case Next(s) => q.Next? && Twins(s, q.s)
    case Halt(s) => q.Halt? && q.s.core.out == s.core.out && q.s.core.flag == s.core.flag && q.s.pc == s.pc
    case Throw(e) => q == Throw(e)
    case Undefined => q == Undefined
  }

  ghost predicate SameCore(rho: map<nat, nat>, r: Outcome<Core>, q: Outcome<Core>) {
    match r
    case Next(c) => q.Next? && CoreTwin(rho, c, q.s)
    case Halt(c) => q.Halt? && q.s.out == c.out && q.s.flag == c.flag
    case Throw(e) => q == Throw(e)
    case Undefined => q == Undefined
  }

  lemma {:induction false} QuietSpace(m: Mem)
    requires QuietHeap(m)
    ensures SpaceOk(m.active) && HeapOk(m)
  {
  }

  // ---------- words ----------

  lemma {:induction false} TwinTags(rho: map<nat, nat>, w: Word, v: Word)
    requires WordTwin(rho, w, v)
    ensures IsPointer(v) == IsPointer(w) && IsInt(v) == IsInt(w) && IsDouble(v) == IsDouble(w) && IsBool(v) == IsBool(w)
    ensures IsChar6(v) == IsChar6(w) && (!IsPointer(w) ==> v == w)
  {
  }

  lemma {:induction false} TwinHeader(rho: map<nat, nat>, s: Space, t: Space, w: Word, v: Word)
    requires WordTwin(rho, w, v) && IsPointer(w) && HeapTwin(rho, s, t) && SpaceOk(t)
    ensures HeaderOf(w) in rho && HeaderOf(v) == rho[HeaderOf(w)]
  {
    hide SpaceOk, NoPointers, IsPointer, HeaderOf;
    ObjectInBounds(t, rho[HeaderOf(w)]);
    PointerRoundTrip(rho[HeaderOf(w)]);
  }

  lemma {:induction false} SetRegTwin(rho: map<nat, nat>, c: Core, d: Core, k: Byte, w: Word, v: Word)
    requires CoreTwin(rho, c, d) && WordTwin(rho, w, v)
    ensures CoreTwin(rho, SetReg(c, k, w), SetReg(d, k, v))
  {
    hide QuietHeap, HeapTwin, WordTwin;
  }

  // ---------- twins the other way round ----------

  function Inverse(rho: map<nat, nat>): (r: map<nat, nat>)
    requires Injective(rho)
    ensures forall a :: a in rho ==> rho[a] in r && r[rho[a]] == a
    ensures forall b :: b in r ==> r[b] in rho && rho[r[b]] == b
  {
    map a | a in rho :: rho[a] := a
  }

  lemma {:induction false} WordMirror(rho: map<nat, nat>, s: Space, t: Space, w: Word, v: Word)
    requires WordTwin(rho, w, v) && HeapTwin(rho, s, t) && SpaceOk(t)
    ensures WordTwin(Inverse(rho), v, w)
  {
    TwinTags(rho, w, v);
    if IsPointer(w) {
      TwinHeader(rho, s, t, w, v);
    }
  }

  lemma {:induction false} HeapMirror(rho: map<nat, nat>, s: Space, t: Space)
    requires HeapTwin(rho, s, t)
    ensures HeapTwin(Inverse(rho), t, s)
  {
    hide Visible;
    var inv := Inverse(rho);
    forall b | b in inv ensures b in t.mem && inv[b] in s.mem && ObjTwin(t.mem[b], s.mem[inv[b]]) {
      assert ObjTwin(s.mem[inv[b]], t.mem[rho[inv[b]]]);
    }
    forall b, c | b in inv && c in inv && inv[b] == inv[c] ensures b == c {
      assert rho[inv[b]] == b && rho[inv[c]] == c;
    }
  }

  lemma {:induction false} RegsMirror(rho: map<nat, nat>, c: Core, d: Core)
    requires CoreTwin(rho, c, d)
    ensures RegsTwin(Inverse(rho), d.reg, c.reg)
  {
    assert SpaceOk(d.mem.active) by { QuietSpace(d.mem); }
    hide QuietHeap, SpaceOk, HeapTwin, WordTwin, Inverse;
    forall k {:trigger d.reg[k]} | 0 <= k < 256 ensures WordTwin(Inverse(rho), d.reg[k], c.reg[k]) {
      assert WordTwin(rho, c.reg[k], d.reg[k]);
      WordMirror(rho, c.mem.active, d.mem.active, c.reg[k], d.reg[k]);
    }
  }

  lemma {:induction false} StackMirror(rho: map<nat, nat>, s: Ref, t: Ref)
    requires TwinBy(rho, s, t)
    ensures StackTwin(Inverse(rho), t.stack, s.stack, t.sp)
  {
    assert SpaceOk(t.core.mem.active) by { QuietSpace(t.core.mem); }
    hide QuietHeap, SpaceOk, HeapTwin, WordTwin, RegsTwin, FramesOk, Inverse;
    forall k {:trigger t.stack[k]} | 0 <= k < t.sp && k < 4096 ensures CellTwin(Inverse(rho), t.stack[k], s.stack[k]) {
      assert CellTwin(rho, s.stack[k], t.stack[k]);
      if s.stack[k].Val? {
        WordMirror(rho, s.core.mem.active, t.core.mem.active, s.stack[k].w, t.stack[k].w);
      }
    }
  }

  lemma {:induction false} TwinsMirror(s: Ref, t: Ref)
    requires Twins(s, t)
    ensures Twins(t, s)
  {
    var rho :| TwinBy(rho, s, t);
    RegsMirror(rho, s.core, t.core);
    StackMirror(rho, s, t);
    HeapMirror(rho, s.core.mem.active, t.core.mem.active);
    hide QuietHeap, HeapTwin, RegsTwin, StackTwin, FramesOk, Inverse;
    assert TwinBy(Inverse(rho), t, s);
  }

  // ---------- operations on registers ----------

  lemma {:induction false} RegTwin(rho: map<nat, nat>, c: Core, d: Core, k: Byte)
    requires CoreTwin(rho, c, d)
    ensures WordTwin(rho, c.reg[k], d.reg[k])
  {
    hide QuietHeap, HeapTwin, WordTwin;
  }

  // Both words are pointers, or they are the same.
  lemma {:induction false} OperandTwin(rho: map<nat, nat>, c: Core, d: Core, k: Byte)
    requires CoreTwin(rho, c, d)
    ensures IsPointer(c.reg[k]) == IsPointer(d.reg[k]) && (IsPointer(c.reg[k]) || d.reg[k] == c.reg[k])
  {
    hide CoreTwin;
    RegTwin(rho, c, d, k);
    TwinTags(rho, c.reg[k], d.reg[k]);
  }

  lemma {:induction false} PointerOnly(w: Word)
    requires IsPointer(w)
    ensures !IsDouble(w) && !IsInt(w) && !IsBool(w) && !IsChar6(w)
  {
  }

  lemma {:induction false} ArithSame(env: Env, env': Env, op: ArithOp, a: Word, b: Word, a': Word, b': Word)
    requires env.fpu == env'.fpu
    requires IsPointer(a) == IsPointer(a') && (IsPointer(a) || a' == a) && IsPointer(b) == IsPointer(b') &&
             (IsPointer(b) || b' == b)
    ensures ArithWords(env, op, a, b) == ArithWords(env', op, a', b')
  {
    hide IsPointer, IsDouble, IsInt, IntOp;
    if IsPointer(a) {
      PointerOnly(a);
      PointerOnly(a');
    }
    if IsPointer(b) {
      PointerOnly(b);
      PointerOnly(b');
    }
  }

  lemma {:induction false} ArithTwin(env: Env, env': Env, op: ArithOp, rho: map<nat, nat>, c: Core, d: Core, rd: Byte,
                                     ra: Byte, rb: Byte)
    requires CoreTwin(rho, c, d) && env.fpu == env'.fpu
    ensures SameCore(rho, CoreArith(env, op, rd, ra, rb, c), CoreArith(env', op, rd, ra, rb, d))
  {
    hide CoreTwin, IsPointer, ArithWords, SetReg;
    OperandTwin(rho, c, d, ra);
    OperandTwin(rho, c, d, rb);
    ArithSame(env, env', op, c.reg[ra], c.reg[rb], d.reg[ra], d.reg[rb]);
    ArithPlain(env, op, c.reg[ra], c.reg[rb]);
    var r := ArithWords(env, op, c.reg[ra], c.reg[rb]);
    if r.Next? {
      SetRegTwin(rho, c, d, rd, r.s, r.s);
    }
  }

  // Arithmetic never yields a pointer.
  lemma {:induction false} ArithPlain(env: Env, op: ArithOp, a: Word, b: Word)
    ensures ArithWords(env, op, a, b).Next? ==> !IsPointer(ArithWords(env, op, a, b).s)
  {
    assert FloatResult(env.fpu, op, a, b);
    if IsDouble(a) && IsDouble(b) {
      FloatsArePlain(env.fpu.arith(op, a, b));
    } else if IsInt(a) && IsInt(b) && IntOp(op, a, b).Some? {
      IntOpExact(op, a, b);
    }
  }

  lemma {:induction false} CompareSame(env: Env, env': Env, a: Word, b: Word, a': Word, b': Word)
    requires env.fpu == env'.fpu
    requires IsPointer(a) == IsPointer(a') && (IsPointer(a) || a' == a) && IsPointer(b) == IsPointer(b') &&
             (IsPointer(b) || b' == b)
    ensures CompareWords(env, a, b) == CompareWords(env', a', b') && !CompareWords(env, a, b).Halt?
  {
    hide IsPointer, IsDouble, IsInt, IsBool, DecodeInt, DecodeBool;
    if IsPointer(a) {
      PointerOnly(a);
      PointerOnly(a');
    }
    if IsPointer(b) {
      PointerOnly(b);
      PointerOnly(b');
    }
  }

  lemma {:induction false} CompareTwin(env: Env, env': Env, rho: map<nat, nat>, c: Core, d: Core, ra: Byte, rb: Byte)
    requires CoreTwin(rho, c, d) && env.fpu == env'.fpu
    ensures SameCore(rho, CoreCompare(env, ra, rb, c), CoreCompare(env', ra, rb, d))
  {
    OperandTwin(rho, c, d, ra);
    OperandTwin(rho, c, d, rb);
    CompareSame(env, env', c.reg[ra], c.reg[rb], d.reg[ra], d.reg[rb]);
    hide QuietHeap, HeapTwin, RegsTwin, IsPointer, CompareWords;
  }

  lemma {:induction false} PrintTwin(rho: map<nat, nat>, c: Core, d: Core, r: Byte)
    requires CoreTwin(rho, c, d)
    ensures Show(c.reg[r]) == Show(d.reg[r])
  {
    hide CoreTwin, IsPointer, IsDouble, IsInt, IsChar6;
    OperandTwin(rho, c, d, r);
    if IsPointer(c.reg[r]) {
      PointerOnly(c.reg[r]);
      PointerOnly(d.reg[r]);
    }
  }

  lemma {:induction false} MovTwin(rho: map<nat, nat>, c: Core, d: Core, rd: Byte, rs: Byte, flag: Byte)
    requires CoreTwin(rho, c, d)
    ensures SameCore(rho, CoreMov(rd, rs, flag, c), CoreMov(rd, rs, flag, d))
  {
    hide CoreTwin, WordTwin, SetReg;
    RegTwin(rho, c, d, rs);
    SetRegTwin(rho, c, d, rd, c.reg[rs], d.reg[rs]);
  }

  // ---------- arrays ----------

  lemma {:induction false} HeapTwinAt(rho: map<nat, nat>, s: Space, t: Space, a: nat)
    requires HeapTwin(rho, s, t) && a in rho
    ensures a in s.mem && rho[a] in t.mem
    ensures s.mem[a].kind == t.mem[rho[a]].kind && |s.mem[a].payload| == |t.mem[rho[a]].payload|
    ensures forall j :: FIELDS <= j < |s.mem[a].payload| ==> s.mem[a].payload[j] == t.mem[rho[a]].payload[j]
  {
    var o, p := s.mem[a], t.mem[rho[a]];
    forall j | FIELDS <= j < |o.payload| ensures o.payload[j] == p.payload[j] {
      assert Visible(o)[j - FIELDS] == o.payload[j] && Visible(p)[j - FIELDS] == p.payload[j];
    }
  }

  // In the object: found by both, at counterparts.
  lemma {:induction false} LocateTwin(rho: map<nat, nat>, c: Core, d: Core, rarr: Byte, ridx: Byte)
    requires CoreTwin(rho, c, d) && IsPointer(c.reg[rarr]) && IsInt(c.reg[ridx])
    requires TameAccess(c.mem, c.reg[rarr], c.reg[ridx])
    ensures var o, p := Locate(c.mem, c.reg[rarr], c.reg[ridx]), Locate(d.mem, d.reg[rarr], d.reg[ridx]);
            o.Next? == p.Next? &&
            (o.Next? ==>
               o.s.0 in rho && o.s.0 in c.mem.active.mem && p.s == (rho[o.s.0], o.s.1) &&
               FIRST_ELEM <= o.s.1 < |c.mem.active.mem[o.s.0].payload|) &&
            (!o.Next? ==> o == p && !o.Halt?)
  {
    hide QuietHeap, SpaceOk, IsInt, IsPointer, HeapTwin, RegsTwin, HeaderOf, DecodeInt, WordTwin;
    RegTwin(rho, c, d, rarr);
    OperandTwin(rho, c, d, ridx);
    IntNoPointer(c.reg[ridx]);
    QuietSpace(d.mem);
    TwinHeader(rho, c.mem.active, d.mem.active, c.reg[rarr], d.reg[rarr]);
    HeapTwinAt(rho, c.mem.active, d.mem.active, HeaderOf(c.reg[rarr]));
    hide CoreTwin;
    LocateInside(c.mem, c.reg[rarr], c.reg[ridx]);
    LocateInside(d.mem, d.reg[rarr], d.reg[ridx]);
  }

  // An access whose array holds its fields, without the memory around it.
  lemma {:induction false} LocateInside(m: Mem, arr: Word, idx: Word)
    requires HeaderOf(arr) in m.active.mem && |m.active.mem[HeaderOf(arr)].payload| > FIELDS
    ensures var o, i := m.active.mem[HeaderOf(arr)], DecodeInt(idx);
            Locate(m, arr, idx) ==
              if o.kind != ObjArray then Undefined
              else if o.payload[FIELDS] / TWO32 < i then Throw(ArrayOutOfBounds)
              else if i < 0 then Undefined
              else Next((HeaderOf(arr), FIRST_ELEM + i))
  {
    hide HeaderOf, DecodeInt, Reachable;
  }

  lemma {:induction false} ReadInside(rd: Byte, rarr: Byte, ridx: Byte, c: Core)
    ensures var l := Locate(c.mem, c.reg[rarr], c.reg[ridx]);
            l.Next? && l.s.0 in c.mem.active.mem && l.s.1 < |c.mem.active.mem[l.s.0].payload| ==>
              CoreRead(rd, rarr, ridx, c) == Next(SetReg(c, rd, c.mem.active.mem[l.s.0].payload[l.s.1]))
    ensures var l := Locate(c.mem, c.reg[rarr], c.reg[ridx]);
            !l.Next? && !l.Halt? ==>
              CoreRead(rd, rarr, ridx, c) == match l case Throw(e) => Throw(e) case _ => Undefined
  {
    hide Locate, Reachable;
  }

  lemma {:induction false} ReadTwin(rho: map<nat, nat>, c: Core, d: Core, rd: Byte, rarr: Byte, ridx: Byte)
    requires CoreTwin(rho, c, d) && IsPointer(c.reg[rarr]) && IsInt(c.reg[ridx])
    requires TameAccess(c.mem, c.reg[rarr], c.reg[ridx])
    ensures SameCore(rho, CoreRead(rd, rarr, ridx, c), CoreRead(rd, rarr, ridx, d))
  {
    LocateTwin(rho, c, d, rarr, ridx);
    ReadInside(rd, rarr, ridx, c);
    ReadInside(rd, rarr, ridx, d);
    hide IsPointer, IsInt, Locate, TameAccess, CoreRead, SetReg;
    var o := Locate(c.mem, c.reg[rarr], c.reg[ridx]);
    if o.Next? {
      var (a, j) := o.s;
      ElementTwin(rho, c, d, a, j);
      hide CoreTwin, WordTwin;
      SetRegTwin(rho, c, d, rd, c.mem.active.mem[a].payload[j], d.mem.active.mem[rho[a]].payload[j]);
    }
  }

  lemma {:induction false} ElementTwin(rho: map<nat, nat>, c: Core, d: Core, a: nat, j: nat)
    requires CoreTwin(rho, c, d) && a in rho && a in c.mem.active.mem && FIELDS <= j < |c.mem.active.mem[a].payload|
    ensures rho[a] in d.mem.active.mem && j < |d.mem.active.mem[rho[a]].payload|
    ensures WordTwin(rho, c.mem.active.mem[a].payload[j], d.mem.active.mem[rho[a]].payload[j])
  {
    HeapTwinAt(rho, c.mem.active, d.mem.active, a);
    QuietWord(c.mem, a, j);
    hide QuietHeap, HeapTwin, RegsTwin, IsPointer;
  }

  lemma {:induction false} QuietWord(m: Mem, a: nat, j: nat)
    requires QuietHeap(m) && a in m.active.mem && FIELDS <= j < |m.active.mem[a].payload|
    ensures !IsPointer(m.active.mem[a].payload[j])
  {
    hide HeapOk, IsPointer;
    assert NoPointers(Visible(m.active.mem[a]));
    assert Visible(m.active.mem[a])[j - FIELDS] == m.active.mem[a].payload[j];
  }

  lemma {:induction false} StoreTwin(rho: map<nat, nat>, s: Space, t: Space, a: nat, j: nat, w: Word)
    requires HeapTwin(rho, s, t) && a in rho && FIELDS <= j < |s.mem[a].payload|
    ensures rho[a] in t.mem && j < |t.mem[rho[a]].payload|
    ensures HeapTwin(rho, SetWord(s, a, j, w), SetWord(t, rho[a], j, w))
  {
    HeapTwinAt(rho, s, t, a);
    var s', t' := SetWord(s, a, j, w), SetWord(t, rho[a], j, w);
    VisibleSet(s.mem[a], j, w);
    VisibleSet(t.mem[rho[a]], j, w);
    hide Visible;
    forall b | b in rho ensures ObjTwin(s'.mem[b], t'.mem[rho[b]]) {
      assert ObjTwin(s.mem[b], t.mem[rho[b]]);
      if b != a {
        assert rho[b] != rho[a];
      }
    }
  }

  lemma {:induction false} VisibleSet(o: Obj, j: nat, w: Word)
    requires FIELDS <= j < |o.payload|
    ensures Visible(o.(payload := o.payload[j := w])) == Visible(o)[j - FIELDS := w]
  {
  }

  lemma {:induction false} StoreQuiet(m: Mem, a: nat, j: nat, w: Word)
    requires QuietHeap(m) && a in m.active.mem && FIRST_ELEM <= j < |m.active.mem[a].payload| && !IsPointer(w)
    ensures QuietHeap(StoreWord(m, a, j, w))
  {
    StoreKeeps(m, a, j, w);
    VisibleSet(m.active.mem[a], j, w);
    hide HeapOk, Visible, IsPointer;
    assert NoPointers(Visible(m.active.mem[a]));
  }

  lemma {:induction false} WriteStep(rho: map<nat, nat>, c: Core, d: Core, a: nat, j: nat, w: Word)
    requires CoreTwin(rho, c, d) && a in rho && a in c.mem.active.mem && !IsPointer(w)
    requires FIRST_ELEM <= j < |c.mem.active.mem[a].payload|
    ensures rho[a] in d.mem.active.mem && j < |d.mem.active.mem[rho[a]].payload|
    ensures CoreTwin(rho, c.(mem := StoreWord(c.mem, a, j, w)), d.(mem := StoreWord(d.mem, rho[a], j, w)))
  {
    hide QuietHeap, IsPointer, HeapTwin, RegsTwin, SetWord;
    StoreTwin(rho, c.mem.active, d.mem.active, a, j, w);
    StoreQuiet(c.mem, a, j, w);
    StoreQuiet(d.mem, rho[a], j, w);
  }

  lemma {:induction false} WriteTwin(rho: map<nat, nat>, c: Core, d: Core, rs: Byte, rarr: Byte, ridx: Byte)
    requires CoreTwin(rho, c, d) && !IsPointer(c.reg[rs]) && IsPointer(c.reg[rarr]) && IsInt(c.reg[ridx])
    requires TameAccess(c.mem, c.reg[rarr], c.reg[ridx])
    ensures SameCore(rho, CoreWrite(rs, rarr, ridx, c), CoreWrite(rs, rarr, ridx, d))
  {
    OperandTwin(rho, c, d, rs);
    LocateTwin(rho, c, d, rarr, ridx);
    WriteInside(rs, rarr, ridx, c);
    WriteInside(rs, rarr, ridx, d);
    hide IsPointer, IsInt, Locate, CoreTwin, StoreWord, TameAccess, CoreWrite;
    var o := Locate(c.mem, c.reg[rarr], c.reg[ridx]);
    if o.Next? {
      var (a, j) := o.s;
      WriteStep(rho, c, d, a, j, c.reg[rs]);
    }
  }

  lemma {:induction false} WriteInside(rs: Byte, rarr: Byte, ridx: Byte, c: Core)
    ensures var l := Locate(c.mem, c.reg[rarr], c.reg[ridx]);
            l.Next? && l.s.0 in c.mem.active.mem && l.s.1 < |c.mem.active.mem[l.s.0].payload| ==>
              CoreWrite(rs, rarr, ridx, c) == Next(c.(mem := StoreWord(c.mem, l.s.0, l.s.1, c.reg[rs])))
    ensures var l := Locate(c.mem, c.reg[rarr], c.reg[ridx]);
            !l.Next? && !l.Halt? ==>
              CoreWrite(rs, rarr, ridx, c) == match l case Throw(e) => Throw(e) case _ => Undefined
  {
    hide Locate, StoreWord, FreeBehind;
  }

  // ---------- allocation and collection ----------

  lemma {:induction false} NewHeapTwin(rho: map<nat, nat>, s: Space, t: Space, a: nat, b: nat, o: Obj, p: Obj,
                                       s': Space, t': Space)
    requires HeapTwin(rho, s, t) && a !in s.mem && b !in t.mem && ObjTwin(o, p)
    requires s'.mem == s.mem[a := o] && t'.mem == t.mem[b := p]
    ensures HeapTwin(rho[a := b], s', t') && a !in rho
  {
    hide Visible;
  }

  // A larger rho relates at least as much.
  lemma {:induction false} TwinGrows(rho: map<nat, nat>, a: nat, b: nat, w: Word, v: Word)
    requires WordTwin(rho, w, v) && a !in rho
    ensures WordTwin(rho[a := b], w, v)
  {
  }

  lemma {:induction false} RegsGrow(rho: map<nat, nat>, a: nat, b: nat, r: Regs, q: Regs)
    requires RegsTwin(rho, r, q) && a !in rho
    ensures RegsTwin(rho[a := b], r, q)
  {
    forall k {:trigger r[k]} | 0 <= k < 256 ensures WordTwin(rho[a := b], r[k], q[k]) {
      TwinGrows(rho, a, b, r[k], q[k]);
    }
  }

  lemma {:induction false} StackGrows(rho: map<nat, nat>, a: nat, b: nat, s: Cells, t: Cells, sp: nat)
    requires StackTwin(rho, s, t, sp) && a !in rho
    ensures StackTwin(rho[a := b], s, t, sp)
  {
    forall k {:trigger s[k]} | 0 <= k < sp && k < 4096 ensures CellTwin(rho[a := b], s[k], t[k]) {
      assert CellTwin(rho, s[k], t[k]);
      if s[k].Val? {
        TwinGrows(rho, a, b, s[k].w, t[k].w);
      }
    }
  }

  lemma {:induction false} IntNoPointer(w: Word)
    ensures IsInt(w) ==> !IsPointer(w)
  {
  }

  // New arrays of the same length and type are twins, whatever memory held.
  lemma {:induction false} NewObjTwin(ws: seq<Word>, vs: seq<Word>, length: nat)
    requires |ws| == |vs| == length + 3 && ws[FIELDS..] == vs[FIELDS..]
    ensures ObjTwin(NewObj(ws), NewObj(vs))
  {
    hide ArraySize;
    if length >= 2 {
      assert ws[..length + 1][FIELDS..] == ws[FIELDS..][..length - 1];
      assert vs[..length + 1][FIELDS..] == vs[FIELDS..][..length - 1];
    }
  }

  lemma {:induction false} NewWordsMeet(malloc: Malloc, stale: Stale, m: Mem, malloc': Malloc, stale': Stale, m': Mem,
                                        length: nat, elemType: nat)
    ensures NewWords(malloc, stale, m, length, elemType)[FIELDS..] ==
            NewWords(malloc', stale', m', length, elemType)[FIELDS..]
  {
    hide Content, FieldsWord, Spot;
  }

  lemma {:induction false} NewObjQuiet(malloc: Malloc, stale: Stale, m: Mem, length: nat, elemType: nat)
    requires ArraySize(length) <= CHUNK_SIZE
    ensures NoPointers(Visible(NewObj(NewWords(malloc, stale, m, length, elemType))))
  {
    var ws := NewWords(malloc, stale, m, length, elemType);
    NewWordsAre(malloc, stale, m, length, elemType);
    ArraySizeExact(length);
    FieldsPlain(elemType, length);
    SmallWordsAreDoubles(0);
    hide NewWords, FieldsWord, ArraySize, IsPointer;
    var vs := Visible(NewObj(ws));
    forall i | 0 <= i < |vs| ensures !IsPointer(vs[i]) {
      assert vs[i] == ws[FIELDS + i];
    }
  }

  lemma {:induction false} FieldsPlain(elemType: nat, length: nat)
    requires length < 0x10_0000
    ensures !IsPointer(FieldsWord(elemType, length))
  {
    SmallWordsAreDoubles(FieldsWord(elemType, length));
  }

  lemma {:induction false} NewQuiet(env: Env, m: Mem, length: nat, elemType: nat, m': Mem, a: nat)
    requires QuietHeap(m) && ArraySize(length) <= CHUNK_SIZE
    requires NewArray(env.malloc, env.stale, m, length, elemType) == Some((m', a))
    ensures QuietHeap(m')
  {
    NewArrayKeeps(env.malloc, env.stale, m, length, elemType);
    NewObjQuiet(env.malloc, env.stale, m, length, elemType);
    hide HeapOk, NewArray, Visible, NewObj, NewWords, ArraySize, NoPointers, Spill;
  }

  // Both machines get a fresh zeroed array; rho grows by the pair of new addresses.
  lemma {:induction false} NewArrayTwin(env: Env, env': Env, rho: map<nat, nat>, s: Ref, t: Ref, rd: Byte, length: int,
                                        rty: Byte)
    requires TwinBy(rho, s, t) && IsInt(s.core.reg[rty])
    ensures SameOutcome(LiftRef(s, CoreNewArray(env, rd, length, rty, s.core)),
                        LiftRef(t, CoreNewArray(env', rd, length, rty, t.core)))
  {
    hide QuietHeap, IsPointer, IsInt, NewArray, HeapTwin, ArraySize, StackTwin, IsDouble, IsBool, IsChar6;
    var c, d := s.core, t.core;
    assert WordTwin(rho, c.reg[rty], d.reg[rty]);
    TwinTags(rho, c.reg[rty], d.reg[rty]);
    assert c.reg[rty] == d.reg[rty] by { IntNoPointer(c.reg[rty]); }
    var n := DecodeInt(c.reg[rty]) % TWO32;
    if 0 <= length && ArraySize(length) <= CHUNK_SIZE {
      var x := NewArray(env.malloc, env.stale, c.mem, length, n);
      var y := NewArray(env'.malloc, env'.stale, d.mem, length, n);
      if x.Some? && y.Some? {
        hide WordTwin, RegsTwin, TwinBy;
        NewArrayBoth(env, env', rho, s, t, rd, length, n, x.value.0, x.value.1, y.value.0, y.value.1);
      }
    }
  }

  lemma {:induction false} TwinsQuiet(rho: map<nat, nat>, s: Ref, t: Ref)
    requires TwinBy(rho, s, t)
    ensures QuietHeap(s.core.mem) && QuietHeap(t.core.mem)
  {
    hide QuietHeap, HeapTwin, RegsTwin, FramesOk, StackTwin, StackLoose;
  }

  lemma {:induction false} NewFrame(env: Env, m: Mem, length: nat, elemType: nat, m': Mem, a: nat)
    requires QuietHeap(m) && ArraySize(length) <= CHUNK_SIZE
    requires NewArray(env.malloc, env.stale, m, length, elemType) == Some((m', a))
    ensures QuietHeap(m') && a !in m.active.mem && a + 16 < TWO48
    ensures m'.active.mem == m.active.mem[a := NewObj(NewWords(env.malloc, env.stale, m, length, elemType))]
  {
    QuietSpace(m);
    hide QuietHeap, NewArray, NewObj, NewWords, ArraySize, Spill, HeapOk;
    NewArrayKeeps(env.malloc, env.stale, m, length, elemType);
    NewQuiet(env, m, length, elemType, m', a);
  }

  lemma {:induction false} NewArrayBoth(env: Env, env': Env, rho: map<nat, nat>, s: Ref, t: Ref, rd: Byte, length: nat,
                                        n: nat, m: Mem, a: nat, m': Mem, b: nat)
    requires TwinBy(rho, s, t) && ArraySize(length) <= CHUNK_SIZE
    requires NewArray(env.malloc, env.stale, s.core.mem, length, n) == Some((m, a))
    requires NewArray(env'.malloc, env'.stale, t.core.mem, length, n) == Some((m', b))
    ensures Twins(s.(core := SetReg(s.core.(mem := m), rd, PointerTo(a))),
                  t.(core := SetReg(t.core.(mem := m'), rd, PointerTo(b))))
  {
    TwinsQuiet(rho, s, t);
    hide QuietHeap, NewArray, TwinBy, NewObj, NewWords, ArraySize, Spill, HeapOk, ObjTwin, SetReg, PointerTo;
    NewFrame(env, s.core.mem, length, n, m, a);
    NewFrame(env', t.core.mem, length, n, m', b);
    NewWordsMeet(env.malloc, env.stale, s.core.mem, env'.malloc, env'.stale, t.core.mem, length, n);
    var ws := NewWords(env.malloc, env.stale, s.core.mem, length, n);
    var vs := NewWords(env'.malloc, env'.stale, t.core.mem, length, n);
    NewObjTwin(ws, vs, length);
    NewArrayStep(rho, s, t, rd, NewObj(ws), NewObj(vs), m, a, m', b);
  }

  lemma {:induction false} NewArrayStep(rho: map<nat, nat>, s: Ref, t: Ref, rd: Byte, o: Obj, p: Obj, m: Mem, a: nat,
                                        m': Mem, b: nat)
    requires TwinBy(rho, s, t) && ObjTwin(o, p) && QuietHeap(m) && QuietHeap(m') && a + 16 < TWO48
    requires a !in s.core.mem.active.mem && m.active.mem == s.core.mem.active.mem[a := o]
    requires b !in t.core.mem.active.mem && m'.active.mem == t.core.mem.active.mem[b := p]
    ensures TwinBy(rho[a := b], s.(core := SetReg(s.core.(mem := m), rd, PointerTo(a))),
                   t.(core := SetReg(t.core.(mem := m'), rd, PointerTo(b))))
  {
    var rho' := rho[a := b];
    hide QuietHeap, ObjTwin;
    NewHeapTwin(rho, s.core.mem.active, t.core.mem.active, a, b, o, p, m.active, m'.active);
    RegsGrow(rho, a, b, s.core.reg, t.core.reg);
    StackGrows(rho, a, b, s.stack, t.stack, s.sp);
    PointerRoundTrip(a);
    hide HeapTwin, StackTwin, IsPointer;
    assert WordTwin(rho', PointerTo(a), PointerTo(b));
    SetRegTwin(rho', s.core.(mem := m), t.core.(mem := m'), rd, PointerTo(a), PointerTo(b));
  }

  // rho followed by one collection's forwarding.
  function Forward(rho: map<nat, nat>, fwd: map<nat, nat>): (r: map<nat, nat>)
    ensures forall a :: a in r <==> a in rho && rho[a] in fwd
    ensures forall a :: a in r ==> r[a] == fwd[rho[a]]
  {
    map a | a in rho && rho[a] in fwd :: fwd[rho[a]]
  }

  lemma {:induction false} NoneTracedFits(m: Mem, roots: seq<Word>)
    requires NoneTraced(m)
    ensures Marked(roots, m.active) == Named(roots) && forall a :: a in m.active.mem ==> !Overruns(m.active.mem[a])
  {
    NothingTraced(roots, m.active);
  }

  // The second machine collects alone: its pointers follow the forwarding map.
  lemma {:induction false} ForwardWord(rho: map<nat, nat>, fwd: map<nat, nat>, s: Space, t: Space, w: Word, v: Word)
    requires WordTwin(rho, w, v) && HeapTwin(rho, s, t) && SpaceOk(t) && (IsPointer(v) ==> HeaderOf(v) in fwd)
    ensures WordTwin(Forward(rho, fwd), w, Patch(fwd, v))
  {
    TwinTags(rho, w, v);
    if IsPointer(w) {
      TwinHeader(rho, s, t, w, v);
    }
  }

  lemma {:induction false} ForwardHeap(rho: map<nat, nat>, fwd: map<nat, nat>, s: Space, t: Space, marked: set<int>,
                                       t': Space)
    requires HeapTwin(rho, s, t) && SpaceOk(t) && Compacted(t, marked, t', fwd)
    ensures HeapTwin(Forward(rho, fwd), s, t')
  {
    hide SpaceOk, Walk, Filter, Images, Visible;
    var rho' := Forward(rho, fwd);
    forall a | a in rho' ensures ObjTwin(s.mem[a], t'.mem[rho'[a]]) {
      assert ObjTwin(s.mem[a], t.mem[rho[a]]);
      ObjectInBounds(t, rho[a]);
      CopySize(t.mem[rho[a]]);
      SameVisible(t.mem[rho[a]], t'.mem[rho'[a]]);
    }
    forall a, b | a in rho' && b in rho' && rho'[a] == rho'[b] ensures a == b {
      assert rho[a] == rho[b];
    }
  }

  lemma {:induction false} SameVisible(o: Obj, p: Obj)
    requires o.payload == p.payload
    ensures Visible(o) == Visible(p)
  {
  }

  lemma {:induction false} CollectQuiet(malloc: Malloc, m: Mem, marked: set<int>)
    requires QuietHeap(m) && AllLive(marked, m.active) && Collect(malloc, m, marked).Some?
    ensures QuietHeap(Collect(malloc, m, marked).value.0)
  {
    CollectKeeps(malloc, m, marked);
    CollectOk(malloc, m, marked);
    var (m', fwd) := Collect(malloc, m, marked).value;
    hide HeapOk, Collect, SpaceOk, Walk, Filter, Images, Visible, NoPointers;
    forall b | b in m'.active.mem ensures NoPointers(Visible(m'.active.mem[b])) {
      var a :| a in fwd && fwd[a] == b;
      SameVisible(m.active.mem[a], m'.active.mem[b]);
    }
  }

  // Every pointer among the second machine's roots names a live object.
  lemma {:induction false} TwinRootsLive(rho: map<nat, nat>, s: Ref, t: Ref, a: int)
    requires TwinBy(rho, s, t)
    requires a in Named(t.core.reg + CellWords(t.stack[..t.sp]))
    ensures a in rho.Values && a in t.core.mem.active.mem
  {
    var ws := t.core.reg + CellWords(t.stack[..t.sp]);
    QuietSpace(t.core.mem);
    hide QuietHeap, HeapOk, SpaceOk, Marked, HeaderOf, IsPointer, FramesOk, StackTwin, HeapTwin, RegsTwin;
    var i :| 0 <= i < |ws| && IsPointer(ws[i]) && HeaderOf(ws[i]) == a;
    RootTwin(rho, s, t, i);
    var w := RootWord(s, i);
    TwinTags(rho, w, ws[i]);
    TwinHeader(rho, s.core.mem.active, t.core.mem.active, w, ws[i]);
    HeapTwinAt(rho, s.core.mem.active, t.core.mem.active, HeaderOf(w));
  }

  // The i-th root: registers first, then the live stack.
  function RootWord(s: Ref, i: nat): Word
    requires i < 256 + s.sp && s.sp <= STACK_SIZE
  {
    if i < 256 then s.core.reg[i] else CellWord(s.stack[i - 256])
  }

  lemma {:induction false} RootTwin(rho: map<nat, nat>, s: Ref, t: Ref, i: nat)
    requires TwinBy(rho, s, t) && i < 256 + s.sp
    ensures WordTwin(rho, RootWord(s, i), RootWord(t, i))
  {
    SmallWordsAreDoubles(0);
    hide IsPointer, HeapTwin, QuietHeap;
    if i >= 256 {
      assert CellTwin(rho, s.stack[i - 256], t.stack[i - 256]);
    }
  }

  // A collection in the second machine alone: the two are still twins, and where nothing is traced
  // it is never undefined.
  lemma {:induction false} GcTwin(env: Env, rho: map<nat, nat>, s: Ref, t: Ref)
    requires TwinBy(rho, s, t)
    ensures RefGc(env, t).Next? ==> Twins(s, RefGc(env, t).s)
    ensures NoneTraced(t.core.mem) ==> RefGc(env, t) == Throw(BadAlloc) || RefGc(env, t).Next?
  {
    var roots, m := t.core.reg + CellWords(t.stack[..t.sp]), t.core.mem;
    if NoneTraced(m) {
      NoneTracedFits(m, roots);
      forall a | a in Named(roots) ensures a in m.active.mem {
        TwinRootsLive(rho, s, t, a);
      }
    }
    TwinsQuiet(rho, s, t);
    QuietSpace(m);
    var marked := Marked(roots, m.active);
    hide TwinBy, QuietHeap, HeapOk, Marked, Collect, Compacted, Overruns, SpaceOk, NoneTraced, Named;
    var r := Collect(env.malloc, m, marked);
    if RefGc(env, t).Next? {
      CollectOk(env.malloc, m, marked);
      CollectQuiet(env.malloc, m, marked);
      GcStep(rho, s, t, roots, r.value.0, r.value.1);
      assert TwinBy(Forward(rho, r.value.1), s, RefGc(env, t).s);
    }
  }

  lemma {:induction false} RootForward(rho: map<nat, nat>, s: Ref, t: Ref, roots: seq<Word>, new': Space,
                                       fwd: map<nat, nat>, i: nat)
    requires TwinBy(rho, s, t) && roots == t.core.reg + CellWords(t.stack[..t.sp]) && i < 256 + s.sp
    requires Compacted(t.core.mem.active, Marked(roots, t.core.mem.active), new', fwd)
    ensures WordTwin(Forward(rho, fwd), RootWord(s, i), Patch(fwd, RootWord(t, i)))
  {
    assert SpaceOk(t.core.mem.active) by { QuietSpace(t.core.mem); }
    hide QuietHeap, SpaceOk, HeapTwin, IsPointer, Compacted, Forward, StackTwin, Patch;
    RootTwin(rho, s, t, i);
    assert roots[i] == RootWord(t, i);
    NamedByRoot(roots, t.core.mem.active, i);
    InForwarding(t.core.mem.active, Marked(roots, t.core.mem.active), new', fwd, RootWord(t, i));
    ForwardWord(rho, fwd, s.core.mem.active, t.core.mem.active, RootWord(s, i), RootWord(t, i));
  }

  lemma {:induction false} RegsForward(rho: map<nat, nat>, s: Ref, t: Ref, roots: seq<Word>, new': Space,
                                       fwd: map<nat, nat>)
    requires TwinBy(rho, s, t) && roots == t.core.reg + CellWords(t.stack[..t.sp])
    requires Compacted(t.core.mem.active, Marked(roots, t.core.mem.active), new', fwd)
    ensures RegsTwin(Forward(rho, fwd), s.core.reg, PatchAll(fwd, t.core.reg))
  {
    hide CoreTwin, StackTwin, Compacted, Forward, WordTwin, Patch;
    var reg' := PatchAll(fwd, t.core.reg);
    forall k {:trigger s.core.reg[k]} | 0 <= k < 256 ensures WordTwin(Forward(rho, fwd), s.core.reg[k], reg'[k]) {
      RootForward(rho, s, t, roots, new', fwd, k);
    }
  }

  lemma {:induction false} StackForward(rho: map<nat, nat>, s: Ref, t: Ref, roots: seq<Word>, new': Space,
                                        fwd: map<nat, nat>)
    requires TwinBy(rho, s, t) && roots == t.core.reg + CellWords(t.stack[..t.sp])
    requires Compacted(t.core.mem.active, Marked(roots, t.core.mem.active), new', fwd)
    ensures StackTwin(Forward(rho, fwd), s.stack, PatchCells(fwd, t.stack, t.sp), s.sp)
  {
    hide CoreTwin, Compacted, Forward, WordTwin, Patch;
    var stack' := PatchCells(fwd, t.stack, t.sp);
    forall k {:trigger s.stack[k]} | 0 <= k < s.sp && k < 4096
      ensures CellTwin(Forward(rho, fwd), s.stack[k], stack'[k])
    {
      RootForward(rho, s, t, roots, new', fwd, 256 + k);
      assert CellTwin(rho, s.stack[k], t.stack[k]);
    }
  }

  // Patching leaves pointers pointers and everything else as it was.
  lemma {:induction false} LooseForward(fwd: map<nat, nat>, s: Cells, t: Cells, sp: nat)
    requires StackLoose(s, t)
    ensures StackLoose(s, PatchCells(fwd, t, sp))
  {
    hide CellLoose, PatchCell;
    var t' := PatchCells(fwd, t, sp);
    forall k {:trigger s[k]} | 0 <= k < 4096 ensures CellLoose(s[k], t'[k]) {
      assert CellLoose(s[k], t[k]);
      PatchLoose(fwd, s[k], t[k]);
    }
  }

  lemma {:induction false} PatchLoose(fwd: map<nat, nat>, c: Cell, d: Cell)
    requires CellLoose(c, d)
    ensures CellLoose(c, PatchCell(fwd, d))
  {
  }

  lemma {:induction false} GcStep(rho: map<nat, nat>, s: Ref, t: Ref, roots: seq<Word>, m': Mem, fwd: map<nat, nat>)
    requires TwinBy(rho, s, t) && roots == t.core.reg + CellWords(t.stack[..t.sp])
    requires QuietHeap(m') && Compacted(t.core.mem.active, Marked(roots, t.core.mem.active), m'.active, fwd)
    ensures TwinBy(Forward(rho, fwd), s,
                   t.(core := t.core.(reg := PatchAll(fwd, t.core.reg), mem := m'),
                     stack := PatchCells(fwd, t.stack, t.sp)))
  {
    RegsForward(rho, s, t, roots, m'.active, fwd);
    StackForward(rho, s, t, roots, m'.active, fwd);
    assert SpaceOk(t.core.mem.active) by { QuietSpace(t.core.mem); }
    ForwardHeap(rho, fwd, s.core.mem.active, t.core.mem.active, Marked(roots, t.core.mem.active), m'.active);
    LooseForward(fwd, s.stack, t.stack, t.sp);
    hide QuietHeap, HeapTwin, Compacted, Forward, WordTwin, RegsTwin, StackTwin, StackLoose, PatchAll, PatchCells;
  }

  lemma {:induction false} InForwarding(old': Space, marked: set<int>, new': Space, fwd: map<nat, nat>, w: Word)
    requires Compacted(old', marked, new', fwd) && (IsPointer(w) ==> HeaderOf(w) in marked)
    ensures IsPointer(w) ==> HeaderOf(w) in fwd
  {
  }

  // ---------- one instruction ----------

  lemma {:induction false} LiftTwin(rho: map<nat, nat>, s: Ref, t: Ref, o: Outcome<Core>, p: Outcome<Core>)
    requires TwinBy(rho, s, t) && SameCore(rho, o, p)
    ensures SameOutcome(LiftRef(s, o), LiftRef(t, p))
  {
    hide CoreTwin, StackTwin, FramesOk;
    if o.Next? {
      assert TwinBy(rho, s.(core := o.s), t.(core := p.s));
    }
  }

  lemma {:induction false} PushedLoose(rho: map<nat, nat>, w: Word, v: Word)
    requires WordTwin(rho, w, v)
    ensures CellLoose(Val(w), Val(v))
  {
    TwinTags(rho, w, v);
  }

  lemma {:induction false} PushTwin(rho: map<nat, nat>, s: Ref, t: Ref, k: Byte)
    requires TwinBy(rho, s, t)
    ensures SameOutcome(RefPush(s.core.reg[k], s), RefPush(t.core.reg[k], t))
  {
    hide CoreTwin, WordTwin, FramesOk, CellLoose;
    RegTwin(rho, s.core, t.core, k);
    PushedLoose(rho, s.core.reg[k], t.core.reg[k]);
    var o, p := RefPush(s.core.reg[k], s), RefPush(t.core.reg[k], t);
    if o.Next? {
      assert TwinBy(rho, o.s, p.s);
    }
  }

  lemma {:induction false} PopTwin(rho: map<nat, nat>, s: Ref, t: Ref, rd: Byte)
    requires TwinBy(rho, s, t)
    ensures SameOutcome(RefPop(rd, s), RefPop(rd, t))
  {
    hide FramesOk, WordTwin, CoreTwin;
    if s.fp < s.sp {
      assert CellTwin(rho, s.stack[s.sp - 1], t.stack[s.sp - 1]);
      var o, p := RefPop(rd, s), RefPop(rd, t);
      if o.Next? {
        SetRegTwin(rho, s.core, t.core, rd, s.stack[s.sp - 1].w, t.stack[s.sp - 1].w);
        assert TwinBy(rho, o.s, p.s);
      }
    }
  }

  lemma {:induction false} InsertTwin(rho: map<nat, nat>, s: Ref, t: Ref, slot: nat, rs: Byte)
    requires TwinBy(rho, s, t)
    ensures SameOutcome(RefInsert(slot, rs, s), RefInsert(slot, rs, t))
  {
    hide CoreTwin, WordTwin, FramesOk, Guarded, CellLoose;
    RegTwin(rho, s.core, t.core, rs);
    PushedLoose(rho, s.core.reg[rs], t.core.reg[rs]);
    var o, p := RefInsert(slot, rs, s), RefInsert(slot, rs, t);
    if o.Next? {
      assert TwinBy(rho, o.s, p.s);
    }
  }

  // A cell below sp, or one without a pointer, is a twin.
  lemma {:induction false} LiveOrPlain(rho: map<nat, nat>, s: Ref, t: Ref, k: nat)
    requires TwinBy(rho, s, t) && k < STACK_SIZE && (k < s.sp || !IsPointer(CellWord(s.stack[k])))
    ensures CellTwin(rho, s.stack[k], t.stack[k])
  {
    hide FramesOk, CoreTwin, IsPointer;
    assert CellLoose(s.stack[k], t.stack[k]);
    if k < s.sp {
      assert CellTwin(rho, s.stack[k], t.stack[k]);
    }
  }

  lemma {:induction false} StackReadTwin(rho: map<nat, nat>, s: Ref, t: Ref, slot: nat, rd: Byte)
    requires TwinBy(rho, s, t) && (s.sp <= slot < STACK_SIZE ==> !IsPointer(CellWord(s.stack[slot])))
    ensures SameOutcome(RefRead(slot, rd, s), RefRead(slot, rd, t))
  {
    hide FramesOk, WordTwin, CoreTwin, IsPointer, StackLoose;
    if slot < STACK_SIZE {
      LiveOrPlain(rho, s, t, slot);
    }
    var o, p := RefRead(slot, rd, s), RefRead(slot, rd, t);
    if o.Next? {
      SetRegTwin(rho, s.core, t.core, rd, s.stack[slot].w, t.stack[slot].w);
      assert TwinBy(rho, o.s, p.s);
    }
  }

  lemma {:induction false} CallTwin(c: Code, rho: map<nat, nat>, s: Ref, t: Ref, idx: nat)
    requires TwinBy(rho, s, t)
    requires idx < |c.entries| && s.sp + 2 <= STACK_SIZE ==> TameFrame(s, c.entries[idx].frameSize % 0x1_0000)
    ensures SameOutcome(RefCall(c, idx, s), RefCall(c, idx, t))
  {
    hide CoreTwin;
    var o, p := RefCall(c, idx, s), RefCall(c, idx, t);
    if o.Next? {
      assert o.s.frames[..|s.frames|] == s.frames;
      forall k {:trigger o.s.stack[k]} | 0 <= k < o.s.sp && k < 4096 ensures CellTwin(rho, o.s.stack[k], p.s.stack[k]) {
        if k < s.sp {
          assert CellTwin(rho, s.stack[k], t.stack[k]);
        }
      }
      assert TwinBy(rho, o.s, p.s);
    }
  }

  lemma {:induction false} RetTwin(rho: map<nat, nat>, s: Ref, t: Ref)
    requires TwinBy(rho, s, t)
    ensures SameOutcome(RefRet(s), RefRet(t))
  {
    hide CoreTwin, CellTwin;
    var o, p := RefRet(s), RefRet(t);
    if o.Next? {
      assert TwinBy(rho, o.s, p.s);
    }
  }

  // What an allocation starts from: collected first, or not.
  function MaybeGc(env: Env, s: Ref, gc: bool): Outcome<Ref> {
    if gc then RefGc(env, s) else Next(s)
  }

  // Collections on either side, both or neither keep twins twins.
  lemma {:induction false} MaybeGcTwin(env: Env, env': Env, s: Ref, t: Ref, g: bool, h: bool)
    requires Twins(s, t)
    ensures MaybeGc(env, s, g).Next? && MaybeGc(env', t, h).Next? ==> Twins(MaybeGc(env, s, g).s, MaybeGc(env', t, h).s)
    ensures NoneTraced(s.core.mem) ==> MaybeGc(env, s, g) == Throw(BadAlloc) || MaybeGc(env, s, g).Next?
    ensures NoneTraced(t.core.mem) ==> MaybeGc(env', t, h) == Throw(BadAlloc) || MaybeGc(env', t, h).Next?
  {
    TwinsMirror(s, t);
    hide TwinBy, RefGc, NoneTraced;
    if g {
      GcAlone(env, t, s);
      if RefGc(env, s).Next? {
        TwinsMirror(t, RefGc(env, s).s);
      }
    }
    if h {
      GcAlone(env', s, t);
      if MaybeGc(env, s, g).Next? {
        GcAlone(env', MaybeGc(env, s, g).s, t);
      }
    }
  }

  lemma {:induction false} GcAlone(env: Env, s: Ref, t: Ref)
    requires Twins(s, t)
    ensures RefGc(env, t).Next? ==> Twins(s, RefGc(env, t).s)
    ensures NoneTraced(t.core.mem) ==> RefGc(env, t) == Throw(BadAlloc) || RefGc(env, t).Next?
  {
    hide TwinBy, RefGc, NoneTraced;
    var rho :| TwinBy(rho, s, t);
    GcTwin(env, rho, s, t);
  }

  lemma {:induction false} PlainStays(env: Env, s: Ref, gc: bool, k: Byte)
    requires MaybeGc(env, s, gc).Next? && !IsPointer(s.core.reg[k])
    ensures MaybeGc(env, s, gc).s.core.reg[k] == s.core.reg[k]
  {
    hide Gc, IsPointer;
  }

  lemma {:induction false} SameInt(s: Ref, t: Ref, k: Byte)
    requires Twins(s, t) && IsInt(s.core.reg[k])
    ensures t.core.reg[k] == s.core.reg[k] && !IsPointer(s.core.reg[k])
  {
    var rho :| TwinBy(rho, s, t);
    assert WordTwin(rho, s.core.reg[k], t.core.reg[k]);
    IntNoPointer(s.core.reg[k]);
  }

  lemma {:induction false} ArrayIs(env: Env, rd: Byte, rlen: Byte, rty: Byte, s: Ref, gc: bool)
    ensures var r := MaybeGc(env, s, gc);
            RefArray(env, rd, rlen, rty, s, gc) ==
              if r.Next? then LiftRef(r.s, CoreNewArray(env, rd, DecodeInt(s.core.reg[rlen]), rty, r.s.core)) else r
  {
    hide RefGc, CoreNewArray;
  }

  // Two outcomes of a step: twins if both go on, and the same if `calm`.
  ghost predicate Matched(r: Outcome<Ref>, q: Outcome<Ref>, calm: bool) {
    (r.Next? && q.Next? ==> Twins(r.s, q.s)) && (calm ==> SameOutcome(r, q))
  }

  lemma {:induction false} MatchedAnyway(r: Outcome<Ref>, q: Outcome<Ref>, calm: bool)
    requires SameOutcome(r, q)
    ensures Matched(r, q, calm)
  {
    hide Twins;
  }

  ghost predicate BothCalm(s: Ref, t: Ref) {
    NoneTraced(s.core.mem) && NoneTraced(t.core.mem)
  }

  lemma {:induction false} ArrayTwin(env: Env, env': Env, s: Ref, t: Ref, rd: Byte, rlen: Byte, rty: Byte, g: bool,
                                     h: bool)
    requires Twins(s, t) && IsInt(s.core.reg[rlen]) && IsInt(s.core.reg[rty])
    ensures Matched(RefArray(env, rd, rlen, rty, s, g), RefArray(env', rd, rlen, rty, t, h), BothCalm(s, t))
  {
    SameInt(s, t, rlen);
    SameInt(s, t, rty);
    MaybeGcTwin(env, env', s, t, g, h);
    ArrayIs(env, rd, rlen, rty, s, g);
    ArrayIs(env', rd, rlen, rty, t, h);
    hide TwinBy, MaybeGc, RefArray, CoreNewArray, IsInt, IsPointer, NoneTraced;
    var a, b := MaybeGc(env, s, g), MaybeGc(env', t, h);
    if a.Next? && b.Next? {
      PlainStays(env, s, g, rty);
      var rho :| TwinBy(rho, a.s, b.s);
      NewArrayTwin(env, env', rho, a.s, b.s, rd, DecodeInt(s.core.reg[rlen]), rty);
    }
  }

  lemma {:induction false} OpTwin(env: Env, env': Env, m: Mnemonic, ra: Byte, rb: Byte, rc: Byte, rho: map<nat, nat>,
                                  s: Ref, t: Ref, g: bool, h: bool)
    requires TwinBy(rho, s, t) && TameOp(m, ra, rb, rc, s) && env.fpu == env'.fpu
    ensures m == Arr ==> Matched(RefOp(env, m, ra, rb, rc, s, g), RefOp(env', m, ra, rb, rc, t, h), BothCalm(s, t))
    ensures m != Arr ==> SameOutcome(RefOp(env, m, ra, rb, rc, s, g), RefOp(env', m, ra, rb, rc, t, h))
  {
    var c, d := s.core, t.core;
    assert CoreTwin(rho, c, d);
    hide CoreTwin, StackTwin, FramesOk, IsPointer, IsInt, SameOutcome, LiftRef, Matched, BothCalm;
    hide CoreArith, CoreCompare, CoreMov, CoreEnd, CorePrint, CoreWrite, CoreRead, RefArray, RefRet, RefPush,
      RefInsert, RefRead, RefPop;
    match m
    case Add =>
      ArithTwin(env, env', ArithOp.Add, rho, c, d, ra, rb, rc);
      LiftTwin(rho, s, t, CoreArith(env, ArithOp.Add, ra, rb, rc, c), CoreArith(env', ArithOp.Add, ra, rb, rc, d));
    case Sub =>
      ArithTwin(env, env', ArithOp.Sub, rho, c, d, ra, rb, rc);
      LiftTwin(rho, s, t, CoreArith(env, ArithOp.Sub, ra, rb, rc, c), CoreArith(env', ArithOp.Sub, ra, rb, rc, d));
    case Mul =>
      ArithTwin(env, env', ArithOp.Mul, rho, c, d, ra, rb, rc);
      LiftTwin(rho, s, t, CoreArith(env, ArithOp.Mul, ra, rb, rc, c), CoreArith(env', ArithOp.Mul, ra, rb, rc, d));
    case Div =>
      ArithTwin(env, env', ArithOp.Div, rho, c, d, ra, rb, rc);
      LiftTwin(rho, s, t, CoreArith(env, ArithOp.Div, ra, rb, rc, c), CoreArith(env', ArithOp.Div, ra, rb, rc, d));
    case Cmp =>
      CompareTwin(env, env', rho, c, d, ra, rb);
      LiftTwin(rho, s, t, CoreCompare(env, ra, rb, c), CoreCompare(env', ra, rb, d));
    case Mov =>
      MovTwin(rho, c, d, ra, rb, rc);
      LiftTwin(rho, s, t, CoreMov(ra, rb, rc, c), CoreMov(ra, rb, rc, d));
    case End =>
      EndTwin(rho, c, d, ra);
      LiftTwin(rho, s, t, CoreEnd(ra, c), CoreEnd(ra, d));
    case DbgRet =>
      DebugTwin(rho, c, d, ra);
      LiftTwin(rho, s, t, CorePrint(ra, c), CorePrint(ra, d));
    case ArrIns =>
      WriteTwin(rho, c, d, ra, rb, rc);
      LiftTwin(rho, s, t, CoreWrite(ra, rb, rc, c), CoreWrite(ra, rb, rc, d));
    case ArrRead =>
      ReadTwin(rho, c, d, ra, rb, rc);
      LiftTwin(rho, s, t, CoreRead(ra, rb, rc, c), CoreRead(ra, rb, rc, d));
    case Arr => ArrayTwin(env, env', s, t, ra, rb, rc, g, h);
    case Ret => RetTwin(rho, s, t);
    case Push => PushTwin(rho, s, t, ra);
    case Pop => PopTwin(rho, s, t, ra);
    case Ins => InsertTwin(rho, s, t, Slot(ra, rb), rc);
    case Read => StackReadTwin(rho, s, t, Slot(ra, rb), rc);
  }

  lemma {:induction false} LoadTwin(rho: map<nat, nat>, s: Ref, t: Ref, rd: Byte, imm: Word)
    requires TwinBy(rho, s, t) && !IsPointer(imm)
    ensures Twins(s.(core := SetReg(s.core, rd, imm)), t.(core := SetReg(t.core, rd, imm)))
  {
    hide CoreTwin, StackTwin, FramesOk, IsPointer, SetReg;
    SetRegTwin(rho, s.core, t.core, rd, imm, imm);
    assert TwinBy(rho, s.(core := SetReg(s.core, rd, imm)), t.(core := SetReg(t.core, rd, imm)));
  }

  lemma {:induction false} MoveTwin(rho: map<nat, nat>, s: Ref, t: Ref, pc: nat)
    requires TwinBy(rho, s, t)
    ensures TwinBy(rho, s.(pc := pc), t.(pc := pc)) && Twins(s.(pc := pc), t.(pc := pc))
    ensures s.pc == t.pc && s.core.flag == t.core.flag
  {
    hide QuietHeap, HeapTwin, RegsTwin, StackTwin, FramesOk;
  }

  // Whichever of the two machines collect at this step.
  lemma {:induction false} StepTwin(env: Env, env': Env, c: Code, s: Ref, t: Ref, g: bool, h: bool)
    requires Twins(s, t) && Tame(c, s) && env.fpu == env'.fpu
    ensures Matched(RefStep(env, c, s, g), RefStep(env', c, t, h), BothCalm(s, t))
  {
    hide RefOp, RefCall, TwinBy, TameOp, Matched, NoneTraced, SameOutcome;
    var rho :| TwinBy(rho, s, t);
    MoveTwin(rho, s, t, s.pc + 1);
    var r, q := RefStep(env, c, s, g), RefStep(env', c, t, h);
    if s.pc < |c.instrs| {
      var s', t' := s.(pc := s.pc + 1), t.(pc := t.pc + 1);
      match c.instrs[s.pc]
      case Op(m, ra, rb, rc) =>
        TameAnywhere(m, ra, rb, rc, s, s');
        OpTwin(env, env', m, ra, rb, rc, rho, s', t', g, h);
        if m != Arr {
          MatchedAnyway(r, q, BothCalm(s, t));
        }
      case Load(rd, imm) =>
        LoadTwin(rho, s', t', rd, imm);
        NextMatched(r, q, BothCalm(s, t));
      case Call(idx) =>
        CallTwin(c, rho, s', t', idx);
        MatchedAnyway(r, q, BothCalm(s, t));
      case Branch(cond, target) =>
        MoveTwin(rho, s, t, target);
        NextMatched(r, q, BothCalm(s, t));
    } else {
      StoppedMatched(r, q, BothCalm(s, t));
    }
  }

  lemma {:induction false} NextMatched(r: Outcome<Ref>, q: Outcome<Ref>, calm: bool)
    requires r.Next? && q.Next? && Twins(r.s, q.s)
    ensures Matched(r, q, calm)
  {
    hide Twins;
  }

  lemma {:induction false} StoppedMatched(r: Outcome<Ref>, q: Outcome<Ref>, calm: bool)
    requires r == Undefined && q == Undefined
    ensures Matched(r, q, calm)
  {
  }

  lemma {:induction false} TameAnywhere(m: Mnemonic, ra: Byte, rb: Byte, rc: Byte, s: Ref, s': Ref)
    requires TameOp(m, ra, rb, rc, s) && s'.core == s.core && s'.sp == s.sp && s'.stack == s.stack
    ensures TameOp(m, ra, rb, rc, s')
  {
  }

  lemma {:induction false} EndTwin(rho: map<nat, nat>, c: Core, d: Core, r: Byte)
    requires CoreTwin(rho, c, d)
    ensures SameCore(rho, CoreEnd(r, c), CoreEnd(r, d))
  {
    PrintTwin(rho, c, d, r);
    hide Show, QuietHeap, HeapTwin, WordTwin;
  }

  lemma {:induction false} DebugTwin(rho: map<nat, nat>, c: Core, d: Core, r: Byte)
    requires CoreTwin(rho, c, d)
    ensures SameCore(rho, CorePrint(r, c), CorePrint(r, d))
  {
    PrintTwin(rho, c, d, r);
    hide Show, QuietHeap, HeapTwin, WordTwin;
  }
}
