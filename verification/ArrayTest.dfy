// The repository's array test as a program with any array length: it fills an array, adds it up and
// prints the sum, through the last elements too (tests/asm_source/array_test.asm).
module ArrayTest {
  import opened Words
  import opened Wrappers
  import opened Bytes
  import opened Isa
  import opened Literals
  import opened Assembly
  import opened Space
  import opened Collector
  import opened HeapOps
  import opened Machine
  import opened VmSpec
  import opened Reference
  import opened Simulation
  import opened Loading
  import opened Loader
  import opened Labels
  import opened Binaries

  // ---------- the text ----------

  // Making an array of n ints, and index, step and limit.
  function MakeLines(n: nat): seq<Line> {
    [LoadLine(0, Int(n)), LoadLine(1, Int(TAG_INT48)), InstrLine(Op(Arr, 2, 0, 1)),
     LoadLine(3, Int(0)), LoadLine(4, Int(1)), LoadLine(5, Int(n))]
  }

  // Each element twice its index; then sum and index start again.
  function WriteLines(): seq<Line> {
    [InstrLine(Op(Mnemonic.Add, 6, 3, 3)), InstrLine(Op(ArrIns, 6, 2, 3)), InstrLine(Op(Mnemonic.Add, 3, 3, 4)),
     InstrLine(Op(Cmp, 3, 5, 0)), InstrLine(Branch(Lt, "write_loop")), LoadLine(7, Int(0)), LoadLine(3, Int(0))]
  }

  // All elements added up, and the sum printed.
  function ReadLines(): seq<Line> {
    [InstrLine(Op(ArrRead, 8, 2, 3)), InstrLine(Op(Mnemonic.Add, 7, 7, 8)), InstrLine(Op(Mnemonic.Add, 3, 3, 4)),
     InstrLine(Op(Cmp, 3, 5, 0)), InstrLine(Branch(Lt, "read_loop")), InstrLine(Op(End, 7, 0, 0))]
  }

  function Text(n: nat): seq<Line> {
    [FuncLine("main", 0)] + MakeLines(n) + [LabelLine("write_loop")] + WriteLines() + [LabelLine("read_loop")] +
    ReadLines() + [EndFuncLine]
  }

  const WRITE_LOOP: nat := 6
  const READ_LOOP: nat := 13

  function Main(n: nat): Func {
    Func("main", 0, Instructions(MakeLines(n)) + Instructions(WriteLines()) + Instructions(ReadLines()),
         map["write_loop" := WRITE_LOOP, "read_loop" := READ_LOOP])
  }

  lemma {:induction false} TextParses(n: nat)
    ensures ParseLines(Text(n)) == Ok([Main(n)])
  {
    hide FeedAll, EncodeInt, Folds;
    var f := Func("main", 0, [], map[]);
    var t0 := [FuncLine("main", 0)];
    FeedFirst("main", 0);
    assert [] + [f] == [f];
    FeedBlock(t0, [], f, MakeLines(n));
    var g := f.(body := [] + Instructions(MakeLines(n)));
    LabelsFold();
    FeedLabel(t0 + MakeLines(n), [], g, "write_loop", "write_loop");
    var t1 := t0 + MakeLines(n) + [LabelLine("write_loop")];
    var h := g.(labels := map["write_loop" := WRITE_LOOP]);
    assert g.(labels := g.labels["write_loop" := |g.body|]) == h;
    FeedBlock(t1, [], h, WriteLines());
    var k := h.(body := h.body + Instructions(WriteLines()));
    FeedLabel(t1 + WriteLines(), [], k, "read_loop", "read_loop");
    var t2 := t1 + WriteLines() + [LabelLine("read_loop")];
    var l := k.(labels := map["write_loop" := WRITE_LOOP, "read_loop" := READ_LOOP]);
    assert k.(labels := k.labels["read_loop" := |k.body|]) == l;
    FeedBlock(t2, [], l, ReadLines());
    assert l.(body := l.body + Instructions(ReadLines())) == Main(n);
    assert [] + [Main(n)] == [Main(n)];
    FeedEnd(t2 + ReadLines(), [Main(n)]);
  }

  lemma {:induction false} LabelsFold()
    ensures Folds("write_loop", "write_loop") && Folds("read_loop", "read_loop")
  {
  }

  // ---------- the code ----------

  function Instrs(n: nat): seq<Instr<nat>> {
    [Load(0, EncodeInt(n)), Load(1, EncodeInt(TAG_INT48)), Op(Arr, 2, 0, 1),
     Load(3, EncodeInt(0)), Load(4, EncodeInt(1)), Load(5, EncodeInt(n)),
     Op(Mnemonic.Add, 6, 3, 3), Op(ArrIns, 6, 2, 3), Op(Mnemonic.Add, 3, 3, 4), Op(Cmp, 3, 5, 0),
     Branch(Lt, WRITE_LOOP), Load(7, EncodeInt(0)), Load(3, EncodeInt(0)),
     Op(ArrRead, 8, 2, 3), Op(Mnemonic.Add, 7, 7, 8), Op(Mnemonic.Add, 3, 3, 4), Op(Cmp, 3, 5, 0),
     Branch(Lt, READ_LOOP), Op(End, 7, 0, 0)]
  }

  function TestCode(n: nat): Code {
    Code(Instrs(n), [Entry(0, 0)])
  }

  lemma {:induction false} TextResolves(n: nat)
    ensures Resolve([Main(n)]) == TestCode(n)
  {
    hide EncodeInt, Flat, Instrs, Main;
    var c := Resolve([Main(n)]);
    MainResolved(n);
    assert c.instrs == Instrs(n);
    assert c.entries == [Entry(0, 0)] by { MainSize(n); }
  }

  lemma {:induction false} MainSize(n: nat)
    ensures |Main(n).body| == 19 == |Instrs(n)| && Start([Main(n)], 1) == 19 && Main(n).frameSize == 0
  {
    hide EncodeInt, Instruction;
  }

  lemma {:induction false} MainResolved(n: nat)
    ensures Flat([Main(n)]) == Instrs(n)
  {
    hide Flat, Instrs, EncodeInt, Main;
    MainSize(n);
    forall k | 0 <= k < 19 ensures Flat([Main(n)])[k] == Instrs(n)[k] {
      FlatAt([Main(n)], 0, k);
      MainAt(n, k);
    }
  }

  lemma {:induction false} MakeAt(n: nat, k: nat)
    requires k < 6
    ensures var i := Instructions(MakeLines(n))[k]; Retarget(i, LabelIndex(Main(n), i)) == Instrs(n)[k]
  {
    hide EncodeInt;
  }

  lemma {:induction false} WriteAt(n: nat, k: nat)
    requires k < 7
    ensures var i := Instructions(WriteLines())[k]; Retarget(i, LabelIndex(Main(n), i)) == Instrs(n)[WRITE_LOOP + k]
  {
    hide EncodeInt;
  }

  lemma {:induction false} ReadAt(n: nat, k: nat)
    requires k < 6
    ensures var i := Instructions(ReadLines())[k]; Retarget(i, LabelIndex(Main(n), i)) == Instrs(n)[READ_LOOP + k]
  {
    hide EncodeInt;
  }

  lemma {:induction false} MainAt(n: nat, k: nat)
    requires k < 19 && |Main(n).body| == 19
    ensures Retarget(Main(n).body[k], LabelIndex(Main(n), Main(n).body[k])) == Instrs(n)[k]
  {
    hide EncodeInt, Instrs, Instruction, LabelIndex, Retarget;
    if k < WRITE_LOOP {
      MakeAt(n, k);
    } else if k < READ_LOOP {
      WriteAt(n, k - WRITE_LOOP);
    } else {
      ReadAt(n, k - READ_LOOP);
    }
  }

  // ---------- runs of known length ----------

  // k steps lead from s to t, whatever collections are asked for.
  ghost predicate Reaches(env: Env, c: Code, s: Ref, k: nat, t: Ref) {
    forall gcs: seq<bool> :: |gcs| >= k ==> RefRun(env, c, s, gcs) == RefRun(env, c, t, gcs[k..])
  }

  lemma {:induction false} ReachesOne(env: Env, c: Code, s: Ref, t: Ref)
    requires RefStep(env, c, s, true) == RefStep(env, c, s, false) == Next(t)
    ensures Reaches(env, c, s, 1, t)
  {
    hide RefStep;
    forall gcs: seq<bool> | |gcs| >= 1 ensures RefRun(env, c, s, gcs) == RefRun(env, c, t, gcs[1..]) {
      assert gcs[0] == true || gcs[0] == false;
    }
  }

  lemma {:induction false} ReachesOn(env: Env, c: Code, s: Ref, j: nat, t: Ref, k: nat, u: Ref)
    requires Reaches(env, c, s, j, t) && Reaches(env, c, t, k, u)
    ensures Reaches(env, c, s, j + k, u)
  {
    hide RefRun;
    forall gcs: seq<bool> | |gcs| >= j + k ensures RefRun(env, c, s, gcs) == RefRun(env, c, u, gcs[j + k..]) {
      assert gcs[j..][k..] == gcs[j + k..];
      assert RefRun(env, c, t, gcs[j..]) == RefRun(env, c, u, gcs[j..][k..]);
    }
  }

  // ---------- single instructions on ints ----------

  predicate Holds(c: Code, k: nat, i: Instr<nat>) {
    k < |c.instrs| && c.instrs[k] == i
  }

  // An instruction's step, when it does not depend on collections.
  lemma {:induction false} OpReaches(env: Env, c: Code, s: Ref, m: Mnemonic, ra: Byte, rb: Byte, rc: Byte, t: Ref)
    requires Holds(c, s.pc, Op(m, ra, rb, rc))
    requires var u := s.(pc := s.pc + 1);
             RefOp(env, m, ra, rb, rc, u, true) == RefOp(env, m, ra, rb, rc, u, false) == Next(t)
    ensures Reaches(env, c, s, 1, t)
  {
    hide RefOp, Reaches;
    ReachesOne(env, c, s, t);
  }

  // The core's part of the instructions of the test.
  lemma {:induction false} CoreOps(env: Env, ra: Byte, rb: Byte, rc: Byte, s: Ref, gc: bool)
    ensures RefOp(env, Mnemonic.Add, ra, rb, rc, s, gc) == LiftRef(s, CoreArith(env, ArithOp.Add, ra, rb, rc, s.core))
    ensures RefOp(env, Cmp, ra, rb, rc, s, gc) == LiftRef(s, CoreCompare(env, ra, rb, s.core))
    ensures RefOp(env, ArrIns, ra, rb, rc, s, gc) == LiftRef(s, CoreWrite(ra, rb, rc, s.core))
    ensures RefOp(env, ArrRead, ra, rb, rc, s, gc) == LiftRef(s, CoreRead(ra, rb, rc, s.core))
  {
    hide LiftRef, CoreArith, CoreCompare, CoreWrite, CoreRead;
  }

  predicate Small(x: int) {
    -TWO47 <= x < TWO47
  }

  lemma {:induction false} AddInts(x: int, y: int)
    requires Small(x) && Small(y) && Small(x + y)
    ensures IsInt(EncodeInt(x)) && IsInt(EncodeInt(y)) && DecodeInt(EncodeInt(x)) == x
    ensures IntOp(ArithOp.Add, EncodeInt(x), EncodeInt(y)) == Some(EncodeInt(x + y))
  {
    BoxingRoundTrip(x, 0, false);
    BoxingRoundTrip(y, 0, false);
    hide EncodeInt, DecodeInt;
  }

  lemma {:induction false} AddStep(env: Env, c: Code, s: Ref, rd: Byte, ra: Byte, rb: Byte, x: int, y: int)
    requires Holds(c, s.pc, Op(Mnemonic.Add, rd, ra, rb))
    requires Small(x) && Small(y) && Small(x + y) && s.core.reg[ra] == EncodeInt(x) && s.core.reg[rb] == EncodeInt(y)
    ensures Reaches(env, c, s, 1, s.(pc := s.pc + 1, core := SetReg(s.core, rd, EncodeInt(x + y))))
  {
    AddInts(x, y);
    hide EncodeInt, IsInt, IntOp, Reaches, RefOp, SetReg, Holds;
    IntNoDouble(s.core.reg[ra]);
    CoreOps(env, rd, ra, rb, s.(pc := s.pc + 1), false);
    CoreOps(env, rd, ra, rb, s.(pc := s.pc + 1), true);
    OpReaches(env, c, s, Mnemonic.Add, rd, ra, rb, s.(pc := s.pc + 1, core := SetReg(s.core, rd, EncodeInt(x + y))));
  }

  lemma {:induction false} IntNoDouble(w: Word)
    requires IsInt(w)
    ensures !IsDouble(w)
  {
  }

  lemma {:induction false} LoadStep(env: Env, c: Code, s: Ref, rd: Byte, w: Word)
    requires Holds(c, s.pc, Load(rd, w))
    ensures Reaches(env, c, s, 1, s.(pc := s.pc + 1, core := SetReg(s.core, rd, w)))
  {
    hide Reaches;
    ReachesOne(env, c, s, s.(pc := s.pc + 1, core := SetReg(s.core, rd, w)));
  }

  // Comparing ints and jumping when less.
  lemma {:induction false} LoopStep(env: Env, c: Code, s: Ref, ra: Byte, rb: Byte, z: Byte, target: nat, x: int, y: int)
    returns (t: Ref)
    requires Holds(c, s.pc, Op(Cmp, ra, rb, z)) && Holds(c, s.pc + 1, Branch(Lt, target))
    requires Small(x) && Small(y) && s.core.reg[ra] == EncodeInt(x) && s.core.reg[rb] == EncodeInt(y)
    ensures Reaches(env, c, s, 2, t) && t == s.(pc := t.pc, core := s.core.(flag := t.core.flag))
    ensures t.pc == if x < y then target else s.pc + 2
  {
    BoxingRoundTrip(x, 0, false);
    BoxingRoundTrip(y, 0, false);
    hide EncodeInt, IsInt, DecodeInt, Reaches, RefOp;
    IntNoDouble(s.core.reg[ra]);
    var u := s.(pc := s.pc + 1, core :=
      s.core.(flag := if x == y then FLAG_EQUAL else if x < y then FLAG_LESS else FLAG_GREATER));
    CoreOps(env, ra, rb, z, s.(pc := s.pc + 1), false);
    CoreOps(env, ra, rb, z, s.(pc := s.pc + 1), true);
    OpReaches(env, c, s, Cmp, ra, rb, z, u);
    t := u.(pc := if x < y then target else s.pc + 2);
    ReachesOne(env, c, u, t);
    ReachesOn(env, c, s, 1, u, 1, t);
  }

  // ---------- the array ----------

  // An array of n elements, all in reach, of which the first i hold twice their index.
  ghost predicate Filled(m: Mem, a: nat, n: nat, i: nat) {
    HeapOk(m) && a in m.active.mem && m.active.mem[a].kind == ObjArray && a + 16 < TWO48 &&
    ReadWord(m, a, FIELDS) == Some(FieldsWord(TAG_INT48, n)) &&
    (forall k: nat :: FIRST_ELEM <= k < FIRST_ELEM + n ==> Reachable(m, a, k)) &&
    forall k: nat :: FIRST_ELEM <= k < FIRST_ELEM + i ==> ReadWord(m, a, k) == Some(EncodeInt(2 * (k - FIRST_ELEM)))
  }

  // It fits into one chunk with its last two elements.
  predicate Fitting(n: nat) {
    1 <= n && FIRST_ELEM + n + 2 <= CHUNK_SIZE / 8
  }

  lemma {:induction false} FirstArray(env: Env, n: nat) returns (m: Mem, a: nat)
    requires env.malloc({}).Some? && Fitting(n)
    ensures ArraySize(n) <= CHUNK_SIZE && NewArray(env.malloc, env.stale, NO_HEAP, n, TAG_INT48) == Some((m, a))
    ensures Filled(m, a, n, 0)
  {
    ArraySizeExact(n);
    EmptyHeapOk();
    FirstPlace(env.malloc, NewObj(NewWords(env.malloc, env.stale, NO_HEAP, n, TAG_INT48)));
    hide HeapOk, ReadWord, Reachable, NewObj, NewWords, Place, ArraySize, FieldsWord, InChunk;
    var r := NewArray(env.malloc, env.stale, NO_HEAP, n, TAG_INT48);
    m, a := r.value.0, r.value.1;
    NewArrayKeeps(env.malloc, env.stale, NO_HEAP, n, TAG_INT48);
    InFirstChunk(m, a, n);
    NewArrayHolds(env.malloc, env.stale, NO_HEAP, n, TAG_INT48, m, a, 0);
    forall k: nat | FIRST_ELEM <= k < FIRST_ELEM + n ensures Reachable(m, a, k) {
      NewArrayWord(env.malloc, env.stale, NO_HEAP, n, TAG_INT48, m, a, k);
    }
  }

  lemma {:induction false} FirstPlace(malloc: Malloc, o: Obj)
    requires malloc({}).Some?
    ensures var r := Place(malloc, Bases(EMPTY), EMPTY, o);
            r.Some? && r.value.0.chunks != [] && Last(r.value.0).base == r.value.1
  {
    assert Bases(EMPTY) + Bases(EMPTY) == {};
  }

  lemma {:induction false} InFirstChunk(m: Mem, a: nat, n: nat)
    requires Fitting(n) && m.active.chunks != [] && Last(m.active).base == a
    ensures forall j: nat :: j <= n + 2 ==> InChunk(m, a, j)
  {
  }

  lemma {:induction false} ElementAt(m: Mem, a: nat, n: nat, i: nat, k: nat)
    requires Filled(m, a, n, k) && i < n && Fitting(n)
    ensures HeaderOf(PointerTo(a)) == a && IsPointer(PointerTo(a))
    ensures Locate(m, PointerTo(a), EncodeInt(i)) == Next((a, FIRST_ELEM + i))
  {
    PointerRoundTrip(a);
    BoxingRoundTrip(i, 0, false);
    FieldsBack(TAG_INT48, n);
    hide HeapOk, ReadWord, Reachable, HeaderOf, PointerTo, IsPointer, EncodeInt, DecodeInt, FieldsWord;
  }

  lemma {:induction false} FillStep(m: Mem, a: nat, n: nat, i: nat)
    requires Filled(m, a, n, i) && i < n
    ensures a in m.active.mem && Reachable(m, a, FIRST_ELEM + i)
    ensures Filled(StoreWord(m, a, FIRST_ELEM + i, EncodeInt(2 * i)), a, n, i + 1)
  {
    hide HeapOk, ReadWord, Reachable, StoreWord, EncodeInt, FieldsWord;
    var j, w := FIRST_ELEM + i, EncodeInt(2 * i);
    assert Reachable(m, a, j);
    var m' := StoreWord(m, a, j, w);
    StoreKeeps(m, a, j, w);
    StoreKind(m, a, j, w);
    StoreRead(m, a, j, w, a, FIELDS);
    forall k: nat | FIRST_ELEM <= k < FIRST_ELEM + n ensures Reachable(m', a, k) {
      StoreRead(m, a, j, w, a, k);
    }
    forall k: nat | FIRST_ELEM <= k < FIRST_ELEM + i + 1
      ensures ReadWord(m', a, k) == Some(EncodeInt(2 * (k - FIRST_ELEM)))
    {
      StoreRead(m, a, j, w, a, k);
    }
  }

  lemma {:induction false} StoreKind(m: Mem, a: nat, j: nat, w: Word)
    requires a in m.active.mem
    ensures a in StoreWord(m, a, j, w).active.mem && StoreWord(m, a, j, w).active.mem[a].kind == m.active.mem[a].kind
  {
  }

  lemma {:induction false} WriteStep(env: Env, c: Code, s: Ref, a: nat, n: nat, i: nat)
    requires Holds(c, s.pc, Op(ArrIns, 6, 2, 3)) && Filled(s.core.mem, a, n, i)
    requires i < n && Fitting(n)
    requires s.core.reg[6] == EncodeInt(2 * i) && s.core.reg[2] == PointerTo(a) && s.core.reg[3] == EncodeInt(i)
    ensures a in s.core.mem.active.mem
    ensures Reaches(env, c, s, 1, s.(pc := s.pc + 1, core :=
              s.core.(mem := StoreWord(s.core.mem, a, FIRST_ELEM + i, EncodeInt(2 * i)))))
  {
    ElementAt(s.core.mem, a, n, i, i);
    FillStep(s.core.mem, a, n, i);
    hide Locate, Reachable, StoreWord, EncodeInt, PointerTo, Reaches, RefOp, Filled, Holds;
    CoreOps(env, 6, 2, 3, s.(pc := s.pc + 1), false);
    CoreOps(env, 6, 2, 3, s.(pc := s.pc + 1), true);
    OpReaches(env, c, s, ArrIns, 6, 2, 3, s.(pc := s.pc + 1, core :=
      s.core.(mem := StoreWord(s.core.mem, a, FIRST_ELEM + i, EncodeInt(2 * i)))));
  }

  lemma {:induction false} ReadStep(env: Env, c: Code, s: Ref, a: nat, n: nat, i: nat)
    requires Holds(c, s.pc, Op(ArrRead, 8, 2, 3)) && Filled(s.core.mem, a, n, n)
    requires i < n && Fitting(n)
    requires s.core.reg[2] == PointerTo(a) && s.core.reg[3] == EncodeInt(i)
    ensures Reaches(env, c, s, 1, s.(pc := s.pc + 1, core := SetReg(s.core, 8, EncodeInt(2 * i))))
  {
    ElementAt(s.core.mem, a, n, i, n);
    FilledAt(s.core.mem, a, n, i);
    hide Locate, Reachable, ReadWord, EncodeInt, PointerTo, Reaches, RefOp, Filled, Holds, SetReg;
    CoreOps(env, 8, 2, 3, s.(pc := s.pc + 1), false);
    CoreOps(env, 8, 2, 3, s.(pc := s.pc + 1), true);
    OpReaches(env, c, s, ArrRead, 8, 2, 3, s.(pc := s.pc + 1, core := SetReg(s.core, 8, EncodeInt(2 * i))));
  }

  lemma {:induction false} FilledAt(m: Mem, a: nat, n: nat, i: nat)
    requires Filled(m, a, n, n) && i < n
    ensures a in m.active.mem && ReadWord(m, a, FIRST_ELEM + i) == Some(EncodeInt(2 * i))
  {
    hide HeapOk, ReadWord, Reachable, EncodeInt, FieldsWord;
  }

  // ---------- the loops' code ----------

  predicate WriteCode(c: Code) {
    Holds(c, 6, Op(Mnemonic.Add, 6, 3, 3)) && Holds(c, 7, Op(ArrIns, 6, 2, 3)) &&
    Holds(c, 8, Op(Mnemonic.Add, 3, 3, 4)) &&
    Holds(c, 9, Op(Cmp, 3, 5, 0)) && Holds(c, 10, Branch(Lt, WRITE_LOOP))
  }

  predicate ReadCode(c: Code) {
    Holds(c, 13, Op(ArrRead, 8, 2, 3)) && Holds(c, 14, Op(Mnemonic.Add, 7, 7, 8)) &&
    Holds(c, 15, Op(Mnemonic.Add, 3, 3, 4)) &&
    Holds(c, 16, Op(Cmp, 3, 5, 0)) && Holds(c, 17, Branch(Lt, READ_LOOP))
  }

  // ---------- the loops ----------

  // At instruction pc with index i, the first k elements filled.
  ghost predicate At(s: Ref, pc: nat, n: nat, a: nat, i: nat, k: nat) {
    s.pc == pc && s.core.out == [] && Filled(s.core.mem, a, n, k) &&
    s.core.reg[2] == PointerTo(a) && s.core.reg[3] == EncodeInt(i) && s.core.reg[4] == EncodeInt(1) &&
    s.core.reg[5] == EncodeInt(n)
  }

  // Setting a scratch register.
  lemma {:induction false} SetScratch(s: Ref, pc: nat, n: nat, a: nat, i: nat, k: nat, r: Byte, w: Word)
    requires At(s, pc, n, a, i, k) && r > 5
    ensures var t := s.(pc := pc + 1, core := SetReg(s.core, r, w));
            At(t, pc + 1, n, a, i, k) && t.core.reg[r] == w && forall q: Byte :: q != r ==>
              t.core.reg[q] == s.core.reg[q]
  {
    hide EncodeInt, PointerTo, Filled;
  }

  // The index goes up.
  lemma {:induction false} Count(env: Env, c: Code, s: Ref, pc: nat, n: nat, a: nat, i: nat, k: nat) returns (t: Ref)
    requires At(s, pc, n, a, i, k) && Holds(c, pc, Op(Mnemonic.Add, 3, 3, 4)) && i < n && Fitting(n)
    ensures Reaches(env, c, s, 1, t) && At(t, pc + 1, n, a, i + 1, k) && t.core.reg[7] == s.core.reg[7]
  {
    hide EncodeInt, PointerTo, Filled, Reaches, Holds;
    AddStep(env, c, s, 3, 3, 4, i, 1);
    t := s.(pc := pc + 1, core := SetReg(s.core, 3, EncodeInt(i + 1)));
  }

  // Round again while the index is below n.
  lemma {:induction false} Again(env: Env, c: Code, s: Ref, pc: nat, target: nat, n: nat, a: nat, i: nat, k: nat)
    returns (t: Ref)
    requires At(s, pc, n, a, i, k) && Holds(c, pc, Op(Cmp, 3, 5, 0)) && Holds(c, pc + 1, Branch(Lt, target))
    requires i <= n && Fitting(n)
    ensures Reaches(env, c, s, 2, t) && At(t, if i < n then target else pc + 2, n, a, i, k)
    ensures t.core.reg[7] == s.core.reg[7]
  {
    hide EncodeInt, PointerTo, Filled, Reaches, Holds;
    t := LoopStep(env, c, s, 3, 5, 0, target, i, n);
  }

  // Doubling the index and storing it.
  lemma {:induction false} Put(env: Env, c: Code, s: Ref, n: nat, a: nat, i: nat) returns (t: Ref)
    requires WriteCode(c) && At(s, WRITE_LOOP, n, a, i, i) && i < n && Fitting(n)
    ensures Reaches(env, c, s, 2, t) && At(t, WRITE_LOOP + 2, n, a, i, i + 1)
  {
    hide EncodeInt, PointerTo, Filled, Reaches, StoreWord, Holds, Reachable, SetReg;
    FillStep(s.core.mem, a, n, i);
    SetScratch(s, 6, n, a, i, i, 6, EncodeInt(2 * i));
    AddStep(env, c, s, 6, 3, 3, i, i);
    var u := s.(pc := 7, core := SetReg(s.core, 6, EncodeInt(2 * i)));
    SameMem(s.core, 6, EncodeInt(2 * i));
    WriteStep(env, c, u, a, n, i);
    t := u.(pc := 8, core := u.core.(mem := StoreWord(s.core.mem, a, FIRST_ELEM + i, EncodeInt(2 * i))));
    ReachesOn(env, c, s, 1, u, 1, t);
  }

  lemma {:induction false} SameMem(c: Core, r: Byte, w: Word)
    ensures SetReg(c, r, w).mem == c.mem
  {
  }

  lemma {:induction false} WriteTurn(env: Env, c: Code, s: Ref, n: nat, a: nat, i: nat) returns (t: Ref)
    requires WriteCode(c) && At(s, WRITE_LOOP, n, a, i, i) && i < n && Fitting(n)
    ensures Reaches(env, c, s, 5, t) && At(t, if i + 1 < n then WRITE_LOOP else WRITE_LOOP + 5, n, a, i + 1, i + 1)
  {
    hide At, Reaches, Holds;
    var u := Put(env, c, s, n, a, i);
    var v := Count(env, c, u, WRITE_LOOP + 2, n, a, i, i + 1);
    t := Again(env, c, v, WRITE_LOOP + 3, WRITE_LOOP, n, a, i + 1, i + 1);
    ReachesOn(env, c, s, 2, u, 1, v);
    ReachesOn(env, c, s, 3, v, 2, t);
  }

  lemma {:induction false} WriteLoop(env: Env, c: Code, s: Ref, n: nat, a: nat, i: nat) returns (t: Ref)
    requires WriteCode(c) && At(s, WRITE_LOOP, n, a, i, i) && i < n && Fitting(n)
    ensures Reaches(env, c, s, 5 * (n - i), t) && At(t, WRITE_LOOP + 5, n, a, n, n)
    decreases n - i
  {
    hide At, Reaches, WriteCode;
    t := WriteTurn(env, c, s, n, a, i);
    if i + 1 < n {
      var u := t;
      t := WriteLoop(env, c, u, n, a, i + 1);
      ReachesOn(env, c, s, 5, u, 5 * (n - i - 1), t);
    }
  }

  // The sum of 2 * j for j below i.
  function SumTo(i: nat): nat {
    i * (i - 1)
  }

  lemma {:induction false} SumStep(i: nat, n: nat)
    requires i < n && Fitting(n)
    ensures SumTo(i) + 2 * i == SumTo(i + 1) && Small(SumTo(i)) && Small(SumTo(i + 1)) && Small(2 * i)
  {
    assert SumTo(i + 1) <= (i + 1) * (i + 1) <= CHUNK_SIZE * CHUNK_SIZE by {
      Squares(i + 1, i, i + 1, i + 1);
      Squares(i + 1, i + 1, CHUNK_SIZE, CHUNK_SIZE);
    }
  }

  lemma {:induction false} Squares(x: nat, y: nat, x': nat, y': nat)
    requires x <= x' && y <= y'
    ensures x * y <= x' * y'
  {
    assert x * y <= x' * y <= x' * y';
  }

  ghost predicate Summing(s: Ref, pc: nat, n: nat, a: nat, i: nat, sum: nat) {
    At(s, pc, n, a, i, n) && s.core.reg[7] == EncodeInt(sum)
  }

  // Reading an element and adding it.
  lemma {:induction false} Take(env: Env, c: Code, s: Ref, n: nat, a: nat, i: nat) returns (t: Ref)
    requires ReadCode(c) && Summing(s, READ_LOOP, n, a, i, SumTo(i)) && i < n && Fitting(n)
    ensures Reaches(env, c, s, 2, t) && Summing(t, READ_LOOP + 2, n, a, i, SumTo(i + 1))
  {
    hide EncodeInt, PointerTo, Filled, Reaches, SumTo, Holds, SetReg, Small;
    SumStep(i, n);
    ReadStep(env, c, s, a, n, i);
    var u := s.(pc := 14, core := SetReg(s.core, 8, EncodeInt(2 * i)));
    SetScratch(s, 13, n, a, i, n, 8, EncodeInt(2 * i));
    AddStep(env, c, u, 7, 7, 8, SumTo(i), 2 * i);
    SetScratch(u, 14, n, a, i, n, 7, EncodeInt(SumTo(i + 1)));
    t := u.(pc := 15, core := SetReg(u.core, 7, EncodeInt(SumTo(i + 1))));
    ReachesOn(env, c, s, 1, u, 1, t);
  }

  lemma {:induction false} ReadTurn(env: Env, c: Code, s: Ref, n: nat, a: nat, i: nat) returns (t: Ref)
    requires ReadCode(c) && Summing(s, READ_LOOP, n, a, i, SumTo(i)) && i < n && Fitting(n)
    ensures Reaches(env, c, s, 5, t)
    ensures Summing(t, if i + 1 < n then READ_LOOP else READ_LOOP + 5, n, a, i + 1, SumTo(i + 1))
  {
    hide At, Reaches, Holds, SumTo, EncodeInt;
    var u := Take(env, c, s, n, a, i);
    var v := Count(env, c, u, READ_LOOP + 2, n, a, i, n);
    t := Again(env, c, v, READ_LOOP + 3, READ_LOOP, n, a, i + 1, n);
    ReachesOn(env, c, s, 2, u, 1, v);
    ReachesOn(env, c, s, 3, v, 2, t);
  }

  lemma {:induction false} ReadLoop(env: Env, c: Code, s: Ref, n: nat, a: nat, i: nat) returns (t: Ref)
    requires ReadCode(c) && Summing(s, READ_LOOP, n, a, i, SumTo(i)) && i < n && Fitting(n)
    ensures Reaches(env, c, s, 5 * (n - i), t) && Summing(t, READ_LOOP + 5, n, a, n, SumTo(n))
    decreases n - i
  {
    hide Summing, Reaches, ReadCode, SumTo;
    t := ReadTurn(env, c, s, n, a, i);
    if i + 1 < n {
      var u := t;
      t := ReadLoop(env, c, u, n, a, i + 1);
      ReachesOn(env, c, s, 5, u, 5 * (n - i - 1), t);
    }
  }

  // ---------- the beginning and the end ----------

  // A collection of no heap, with no pointers about, does nothing.
  lemma {:induction false} EmptyGc(env: Env, s: Ref)
    requires s.core.mem == NO_HEAP && s.sp == 0 && forall k: Byte :: !IsPointer(s.core.reg[k])
    ensures RefGc(env, s) == Next(s)
  {
    hide IsPointer, HeaderOf;
    var roots := s.core.reg + CellWords(s.stack[..0]);
    assert roots == s.core.reg;
    assert Named(roots) == {} && ElementNamed(EMPTY) == {};
    EmptyWalk({});
    assert Collect(env.malloc, NO_HEAP, {}) == Some((NO_HEAP, map[]));
    assert PatchAll(map[], s.core.reg) == s.core.reg;
    assert PatchCells(map[], s.stack, 0) == s.stack;
  }

  predicate Setup(c: Code, n: nat) {
    Holds(c, 0, Load(0, EncodeInt(n))) && Holds(c, 1, Load(1, EncodeInt(TAG_INT48))) && Holds(c, 2, Op(Arr, 2, 0, 1)) &&
    Holds(c, 3, Load(3, EncodeInt(0))) && Holds(c, 4, Load(4, EncodeInt(1))) && Holds(c, 5, Load(5, EncodeInt(n))) &&
    Holds(c, 11, Load(7, EncodeInt(0))) && Holds(c, 12, Load(3, EncodeInt(0))) && Holds(c, 18, Op(End, 7, 0, 0))
  }

  lemma {:induction false} SetupHolds(n: nat)
    ensures Setup(TestCode(n), n)
  {
    hide EncodeInt;
  }

  lemma {:induction false} WriteHolds(n: nat)
    ensures WriteCode(TestCode(n))
  {
    hide EncodeInt;
  }

  lemma {:induction false} ReadHolds(n: nat)
    ensures ReadCode(TestCode(n))
  {
    hide EncodeInt;
  }

  // Length and type in their registers, no heap yet.
  ghost predicate Asking(s: Ref, n: nat) {
    s.pc == 2 && s.core.out == [] && s.core.mem == NO_HEAP && s.sp == 0 &&
    s.core.reg[0] == EncodeInt(n) && s.core.reg[1] == EncodeInt(TAG_INT48) &&
    forall k: Byte :: !IsPointer(s.core.reg[k])
  }

  lemma {:induction false} Begin(env: Env, c: Code, n: nat) returns (t: Ref)
    requires Setup(c, n)
    ensures Reaches(env, c, StartRef(), 2, t) && Asking(t, n)
  {
    BoxingRoundTrip(n, 0, false);
    BoxingRoundTrip(TAG_INT48, 0, false);
    SmallWordsAreDoubles(0);
    hide EncodeInt, Reaches, IsPointer, Holds;
    var s := StartRef();
    LoadStep(env, c, s, 0, EncodeInt(n));
    var u := s.(pc := 1, core := SetReg(s.core, 0, EncodeInt(n)));
    LoadStep(env, c, u, 1, EncodeInt(TAG_INT48));
    t := u.(pc := 2, core := SetReg(u.core, 1, EncodeInt(TAG_INT48)));
    ReachesOn(env, c, s, 1, u, 1, t);
  }

  // The array is made, whether or not a collection is asked for.
  lemma {:induction false} Make(env: Env, c: Code, s: Ref, n: nat) returns (t: Ref, a: nat)
    requires Setup(c, n) && Asking(s, n) && env.malloc({}).Some? && Fitting(n)
    ensures Reaches(env, c, s, 1, t) && t.pc == 3 && t.core.out == [] && Filled(t.core.mem, a, n, 0)
    ensures t.core.reg[2] == PointerTo(a)
  {
    hide EncodeInt, DecodeInt, Reaches, IsPointer, Holds, Filled, NewArray, RefGc, RefOp, PointerTo, ArraySize;
    var m;
    m, a := FirstArray(env, n);
    BoxingRoundTrip(n, 0, false);
    BoxingRoundTrip(TAG_INT48, 0, false);
    var u := s.(pc := 3);
    EmptyGc(env, u);
    t := u.(core := SetReg(u.core.(mem := m), 2, PointerTo(a)));
    ArrOp(env, 2, 0, 1, u, false);
    ArrOp(env, 2, 0, 1, u, true);
    assert CoreNewArray(env, 2, n, 1, u.core) == Next(t.core);
    OpReaches(env, c, s, Arr, 2, 0, 1, t);
  }

  lemma {:induction false} ArrOp(env: Env, ra: Byte, rb: Byte, rc: Byte, s: Ref, gc: bool)
    requires gc ==> RefGc(env, s) == Next(s)
    ensures RefOp(env, Arr, ra, rb, rc, s, gc) ==
            LiftRef(s, CoreNewArray(env, ra, DecodeInt(s.core.reg[rb]), rc, s.core))
  {
    hide RefGc, CoreNewArray, LiftRef, CoreArith, CoreCompare, CoreWrite, CoreRead;
  }

  // Index, step and limit.
  lemma {:induction false} Counters(env: Env, c: Code, s: Ref, n: nat, a: nat) returns (t: Ref)
    requires Setup(c, n) && s.pc == 3 && s.core.out == [] && Filled(s.core.mem, a, n, 0) &&
             s.core.reg[2] == PointerTo(a)
    ensures Reaches(env, c, s, 3, t) && At(t, WRITE_LOOP, n, a, 0, 0)
  {
    hide EncodeInt, Reaches, Holds, Filled, PointerTo;
    LoadStep(env, c, s, 3, EncodeInt(0));
    var u := s.(pc := 4, core := SetReg(s.core, 3, EncodeInt(0)));
    LoadStep(env, c, u, 4, EncodeInt(1));
    var v := u.(pc := 5, core := SetReg(u.core, 4, EncodeInt(1)));
    LoadStep(env, c, v, 5, EncodeInt(n));
    t := v.(pc := 6, core := SetReg(v.core, 5, EncodeInt(n)));
    ReachesOn(env, c, s, 1, u, 1, v);
    ReachesOn(env, c, s, 2, v, 1, t);
  }

  lemma {:induction false} Middle(env: Env, c: Code, s: Ref, n: nat, a: nat) returns (t: Ref)
    requires Setup(c, n) && At(s, WRITE_LOOP + 5, n, a, n, n)
    ensures Reaches(env, c, s, 2, t) && Summing(t, READ_LOOP, n, a, 0, 0)
  {
    hide EncodeInt, Reaches, Holds, Filled, PointerTo;
    LoadStep(env, c, s, 7, EncodeInt(0));
    var u := s.(pc := 12, core := SetReg(s.core, 7, EncodeInt(0)));
    LoadStep(env, c, u, 3, EncodeInt(0));
    t := u.(pc := 13, core := SetReg(u.core, 3, EncodeInt(0)));
    ReachesOn(env, c, s, 1, u, 1, t);
  }

  lemma {:induction false} Finish(env: Env, c: Code, s: Ref, n: nat, a: nat, sum: nat, gcs: seq<bool>)
    requires Setup(c, n) && Summing(s, READ_LOOP + 5, n, a, n, sum) && Small(sum) && gcs != []
    ensures RefRun(env, c, s, gcs).Halt? && RefRun(env, c, s, gcs).s.core.out == [PrintInt(sum)]
  {
    BoxingRoundTrip(sum, 0, false);
    hide EncodeInt, DecodeInt, Filled, PointerTo, RefOp;
    EndOp(env, 7, 0, 0, s.(pc := s.pc + 1), gcs[0]);
  }

  lemma {:induction false} EndOp(env: Env, ra: Byte, rb: Byte, rc: Byte, s: Ref, gc: bool)
    ensures RefOp(env, End, ra, rb, rc, s, gc) == LiftRef(s, CoreEnd(ra, s.core))
  {
    hide CoreEnd, LiftRef, CoreArith, CoreCompare, CoreWrite, CoreRead, RefArray;
  }

  // The turns the program takes.
  function Turns(n: nat): nat {
    10 * n + 9
  }

  // Whatever collections are asked for, the program with length n halts after printing the sum of
  // twice the indices, if there is memory for one chunk.
  lemma {:induction false} ArraySum(env: Env, n: nat, gcs: seq<bool>)
    requires Fitting(n) && env.malloc({}).Some? && |gcs| >= Turns(n)
    ensures var r := RefRun(env, TestCode(n), StartRef(), gcs); r.Halt? && r.s.core.out == [PrintInt(n * (n - 1))]
  {
    hide Reaches, At, Filled, RefRun, Setup, WriteCode, ReadCode, TestCode, Asking, PointerTo, Small;
    var c := TestCode(n);
    SetupHolds(n);
    WriteHolds(n);
    ReadHolds(n);
    var s := Begin(env, c, n);
    var t, a := Make(env, c, s, n);
    ReachesOn(env, c, StartRef(), 2, s, 1, t);
    var u := Counters(env, c, t, n, a);
    ReachesOn(env, c, StartRef(), 3, t, 3, u);
    var v := WriteLoop(env, c, u, n, a, 0);
    ReachesOn(env, c, StartRef(), 6, u, 5 * n, v);
    var w := Middle(env, c, v, n, a);
    ReachesOn(env, c, StartRef(), 6 + 5 * n, v, 2, w);
    var x := ReadLoop(env, c, w, n, a, 0);
    ReachesOn(env, c, StartRef(), 8 + 5 * n, w, 5 * n, x);
    SumStep(n - 1, n);
    ReachesRun(env, c, StartRef(), 8 + 10 * n, x, gcs);
    Finish(env, c, x, n, a, n * (n - 1), gcs[8 + 10 * n..]);
  }

  lemma {:induction false} ReachesRun(env: Env, c: Code, s: Ref, k: nat, t: Ref, gcs: seq<bool>)
    requires Reaches(env, c, s, k, t) && |gcs| >= k
    ensures RefRun(env, c, s, gcs) == RefRun(env, c, t, gcs[k..])
  {
  }

  // ---------- on the loaded machine ----------

  lemma {:induction false} AddrAtMost(c: Code, k: nat)
    requires k <= |c.instrs|
    ensures Addr(c, k) <= Addr(c, 0) + 12 * k
  {
    if k > 0 {
      AddrAtMost(c, k - 1);
      AddrStep(c, k - 1);
    }
  }

  lemma {:induction false} TestLoads(n: nat)
    ensures Loadable(TestCode(n))
  {
    hide EncodeInt;
    AddrAtMost(TestCode(n), |TestCode(n).instrs|);
  }

  // From text to output: the text parses, its resolved program assembles to an image that loads,
  // and the loaded machine, whatever collections are asked for, halts after printing the sum.
  lemma {:induction false} ArrayTestPrints(env: Env, n: nat, gcs: seq<bool>)
    requires Fitting(n) && env.malloc({}).Some? && |gcs| >= Turns(n)
    ensures ParseLines(Text(n)).Ok?
    ensures var c := Resolve(ParseLines(Text(n)).value);
            ValidCode(c) && LoadVm(Image(c)).Next? &&
            var (ld, v) := LoadVm(Image(c)).s;
            VmRun(env, ld, v, gcs).Halt? && VmRun(env, ld, v, gcs).s.core.out == [PrintInt(n * (n - 1))]
  {
    hide FeedAll, RefRun, VmRun, LoadVm, Image, Rel, LoadedFrom, Resolve, TestCode;
    TextParses(n);
    TextResolves(n);
    TestLoads(n);
    ArraySum(env, n, gcs);
    LoadImage(TestCode(n));
    var (ld, v) := LoadVm(Image(TestCode(n))).s;
    SimRun(env, TestCode(n), ld, StartRef(), v, gcs);
  }

  // With the length the test is written with, the sum it expects.
  lemma {:induction false} ExpectedResult(env: Env, gcs: seq<bool>)
    requires env.malloc({}).Some? && |gcs| >= Turns(512000)
    ensures ParseLines(Text(512000)).Ok?
    ensures var c := Resolve(ParseLines(Text(512000)).value);
            ValidCode(c) && LoadVm(Image(c)).Next? &&
            var (ld, v) := LoadVm(Image(c)).s;
            VmRun(env, ld, v, gcs).Halt? && VmRun(env, ld, v, gcs).s.core.out == [PrintInt(262143488000)]
  {
    hide ParseLines, VmRun, LoadVm, Image, Resolve, Text;
    ArrayTestPrints(env, 512000, gcs);
  }

  // ---------- the file ----------

  const MAKE_LISTING: seq<seq<int>> :=
    [[0x05000000, 0x7FF10000, 0x0007D000], [0x05010000, 0x7FF10000, 0x00000001], [0x13020001],
     [0x05030000, 0x7FF10000, 0x00000000], [0x05040000, 0x7FF10000, 0x00000001],
     [0x05050000, 0x7FF10000, 0x0007D000]]

  const WRITE_LISTING: seq<seq<int>> :=
    [[0x00060303], [0x14060203], [0x00030304], [0x06030500], [0x0A000000, 0x00000068],
     [0x05070000, 0x7FF10000, 0x00000000], [0x05030000, 0x7FF10000, 0x00000000]]

  const READ_LISTING: seq<seq<int>> :=
    [[0x15080203], [0x00070708], [0x00030304], [0x06030500], [0x0A000000, 0x00000098], [0x04070000]]

  function TestListing(): seq<seq<int>> {
    MAKE_LISTING + WRITE_LISTING + READ_LISTING
  }

  // The text with the length of the test assembles to the file the repository keeps.
  lemma {:induction false} TestFile()
    ensures AssemblesTo(Text(512000), FRONT, TestListing())
  {
    hide ParseLines, Listed, Resolved, Main, TestCode, Text;
    TextParses(512000);
    MainSize(512000);
    var f, code := Main(512000), Instrs(512000);
    forall k: nat | k < 19 ensures Resolved(f, code, k) {
      MainLine(k);
    }
    forall k: nat | k < 19 ensures Listed(Code(code, [Entry(0, 0)]), TestListing(), k) {
      TestListed(k);
    }
    OneFunction(Text(512000), f, code, TestListing());
  }

  lemma {:induction false} MainLine(k: nat)
    requires k < 19
    ensures |Main(512000).body| == 19 == |Instrs(512000)| && Resolved(Main(512000), Instrs(512000), k)
  {
    MainSize(512000);
    MainAt(512000, k);
    MainBranches(k);
    hide Main, Instrs, LabelIndex, Retarget;
  }

  lemma {:induction false} MainBranches(k: nat)
    requires k < 19
    ensures var f := Main(512000);
            |f.body| == 19 && (f.body[k].Branch? ==> f.body[k].target in f.labels && f.labels[f.body[k].target] <= 19)
  {
    MainSize(512000);
    assert Main(512000).body[k] ==
           Instruction(if k < 6 then MakeLines(512000)[k] else if k < 13 then WriteLines()[k - 6]
                       else ReadLines()[k - 13]).value;
    hide Main;
    if 6 <= k < 13 {
      assert Instruction(WriteLines()[k - 6]).value.Branch? ==> k == 10;
    } else if 13 <= k {
      assert Instruction(ReadLines()[k - 13]).value.Branch? ==> k == 17;
    } else {
      assert !Instruction(MakeLines(512000)[k]).value.Branch?;
    }
    MainLabels();
  }

  lemma {:induction false} MainLabels()
    ensures Main(512000).labels == map["write_loop" := 6, "read_loop" := 13]
  {
  }

  lemma {:induction false} TestAddresses()
    ensures var c := TestCode(512000); Addr(c, 6) == 0x68 && Addr(c, 13) == 0x98
  {
    hide EncodeInt;
    var code := Instrs(512000);
    WriteOffset();
    OffRun(code, 6, 10, 4);
    OffRun(code, 10, 11, 8);
    OffRun(code, 11, 13, 12);
  }

  lemma {:induction false} WriteOffset()
    ensures Off(Instrs(512000), 6) == 64
  {
    hide EncodeInt;
    var code := Instrs(512000);
    OffRun(code, 0, 2, 12);
    OffRun(code, 2, 3, 4);
    OffRun(code, 3, 6, 12);
  }

  lemma {:induction false} TestListed(k: nat)
    requires k < 19
    ensures |Instrs(512000)| == 19 == |TestListing()|
    ensures Listed(Code(Instrs(512000), [Entry(0, 0)]), TestListing(), k)
  {
    TestAddresses();
    MainSize(512000);
    if k < 6 {
      MakeWords(k);
    } else if k < 13 {
      WriteWords(k - 6);
    } else {
      ReadWords(k - 13);
    }
    hide Addr, Off, EncodeInt, Instrs, WordsOf;
  }

  // The words of an instruction whose branches go to the addresses of the labels.
  predicate Worded(i: Instr<nat>, ws: seq<int>) {
    (i.Branch? ==> i.target == 6 || i.target == 13) &&
    ws == WordsOf(i, if i.Branch? then (if i.target == 6 then 0x68 else 0x98) else 0)
  }

  lemma {:induction false} MakeWords(k: nat)
    requires k < 6
    ensures Worded(Instrs(512000)[k], MAKE_LISTING[k])
  {
    hide EncodeInt;
    LengthWord();
  }

  lemma {:induction false} WriteWords(k: nat)
    requires k < 7
    ensures Worded(Instrs(512000)[6 + k], WRITE_LISTING[k])
  {
    hide EncodeInt;
    LengthWord();
  }

  lemma {:induction false} ReadWords(k: nat)
    requires k < 6
    ensures Worded(Instrs(512000)[13 + k], READ_LISTING[k])
  {
    hide EncodeInt;
  }

  lemma {:induction false} LengthWord()
    ensures EncodeInt(512000) == 0x7FF1_0000_0007_D000 && EncodeInt(0) == 0x7FF1_0000_0000_0000
    ensures EncodeInt(1) == EncodeInt(TAG_INT48) == 0x7FF1_0000_0000_0001
  {
  }
}
