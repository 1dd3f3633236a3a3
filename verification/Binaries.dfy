// The assembled files the repository keeps beside its assembly texts, word for word: what each text
// assembles to (tests/asm_source, tests/hand_assembled).
module Binaries {
  import opened Words
  import opened Wrappers
  import opened Bytes
  import opened Isa
  import opened Chunks
  import opened Literals
  import opened Assembly
  import opened Layout
  import opened Assembler
  import opened Labels

  // ---------- a file as header, table and a listing of its instructions ----------

  // The 32-bit words of an instruction; t is the address a branch carries.
  function WordsOf<L>(i: Instr<L>, t: int): seq<int> {
    var d := Fields(i);
    [d.opcode * 0x100_0000 + d.ra * 0x1_0000 + d.rb * 0x100 + d.rc] +
    if i.Load? then [i.imm / TWO32, i.imm % TWO32] else if i.Branch? then [t] else []
  }

  // The first eight words and the function table, then the words of each instruction in turn.
  function File(front: seq<int>, listing: seq<seq<int>>): seq<Byte> {
    PackWords(front) + JoinAll(Packed(listing))
  }

  function Packed(listing: seq<seq<int>>): (r: seq<seq<Byte>>)
    ensures |r| == |listing| && forall k {:trigger r[k]} :: 0 <= k < |r| ==> r[k] == PackWords(listing[k])
  {
    seq(|listing|, k requires 0 <= k < |listing| => PackWords(listing[k]))
  }

  lemma {:induction false} PackLow(n: int)
    ensures PackU32(n % TWO32) == PackU32(n)
  {
    var q, r := n / TWO32, n % TWO32;
    assert n == q * TWO32 + r;
    assert n / 0x100_0000 == 256 * q + r / 0x100_0000;
    assert n / 0x1_0000 == 256 * (q * 0x100) + r / 0x1_0000;
    assert n / 0x100 == 256 * (q * 0x1_0000) + r / 0x100;
    assert n == 256 * (q * 0x100_0000) + r;
    LowBits(q, r / 0x100_0000);
    LowBits(q * 0x100, r / 0x1_0000);
    LowBits(q * 0x1_0000, r / 0x100);
    LowBits(q * 0x100_0000, r);
  }

  lemma {:induction false} LowBits(q: int, r: int)
    ensures (256 * q + r) % 256 == r % 256
  {
  }

  lemma {:induction false} PackShort(a: int, b: int, c: int)
    ensures PackWords([a]) == PackU32(a) && PackWords([a, b]) == PackU32(a) + PackU32(b)
    ensures PackWords([a, b, c]) == PackU32(a) + (PackU32(b) + PackU32(c))
  {
    hide PackU32;
    assert [a][..0] == [] && [a, b][..1] == [a] && [a, b, c][..2] == [a, b];
    assert PackWords([]) + PackU32(a) == PackU32(a);
    assert PackWords([a]) == PackU32(a);
    assert PackWords([a, b]) == PackU32(a) + PackU32(b);
  }

  lemma {:induction false} EncodeWords<L>(i: Instr<L>, t: int)
    ensures Encode(i, t) == PackWords(WordsOf(i, t))
  {
    var d := Fields(i);
    var w := d.opcode * 0x100_0000 + d.ra * 0x1_0000 + d.rb * 0x100 + d.rc;
    hide PackU32, Fields, PackWords;
    if i.Load? {
      PackLow(i.imm);
      PackShort(w, i.imm / TWO32, i.imm % TWO32);
      assert [w] + [i.imm / TWO32, i.imm % TWO32] == [w, i.imm / TWO32, i.imm % TWO32];
    } else if i.Branch? {
      PackShort(w, t, 0);
      assert [w] + [t] == [w, t];
    } else {
      PackShort(w, 0, 0);
      assert [w] + [] == [w] && PackU32(w) + [] == PackU32(w);
    }
  }

  // Line k of the listing is instruction k, a branch with the address of the instruction it names.
  predicate Listed(c: Code, listing: seq<seq<int>>, k: nat)
    requires k < |c.instrs| == |listing|
  {
    var i := c.instrs[k];
    if i.Branch? then i.target <= |c.instrs| && listing[k] == WordsOf(i, Addr(c, i.target))
    else listing[k] == WordsOf(i, 0)
  }

  lemma {:induction false} ImageListed(c: Code, listing: seq<seq<int>>)
    requires ValidCode(c) && |c.instrs| == |listing|
    requires forall k: nat {:trigger Listed(c, listing, k)} :: k < |listing| ==> Listed(c, listing, k)
    ensures Image(c) == File(FrontWords(c), listing)
  {
    hide PackWords, FrontWords, Encode, WordsOf, Addr;
    var es, ps := Encodings(c.instrs, Targets(c)), Packed(listing);
    forall k: nat | k < |listing| ensures es[k] == ps[k] {
      assert Listed(c, listing, k);
      EncodeWords(c.instrs[k], TargetAddr(c, c.instrs[k]));
    }
    assert es == ps;
  }

  // ---------- addresses ----------

  // From a to b, instructions of one size.
  lemma {:induction false} OffRun<L>(body: seq<Instr<L>>, a: nat, b: nat, size: nat)
    requires a <= b <= |body| && forall k :: a <= k < b ==> Size(body[k]) == size
    ensures Off(body, b) == Off(body, a) + size * (b - a)
    decreases b - a
  {
    if a < b {
      OffRun(body, a, b - 1, size);
    }
  }

  lemma {:induction false} OffAtMost<L>(body: seq<Instr<L>>, k: nat)
    requires k <= |body|
    ensures Off(body, k) <= 12 * k
  {
    if k > 0 {
      OffAtMost(body, k - 1);
    }
  }

  // A text of moderate size whose labels are all defined assembles.
  lemma {:induction false} SmallEmits(p: Program)
    requires ValidProgram(p) && AllDefined(p) && |p| + |Flat(p)| < 1_0000_0000
    ensures Emittable(p)
  {
    EmittableIs(p);
    hide Emittable, Off;
    forall n, k: nat | 0 <= n < |p| && k < |p[n].body| ensures AddressAt(p[n], Base(p, n), k) {
      var f := p[n];
      StartMonotone(p, n + 1, |p|);
      OffAtMost(Flat(p), Start(p, n));
      if f.body[k].Branch? && f.body[k].target in f.labels {
        assert ValidFunc(f);
        OffAtMost(f.body, f.labels[f.body[k].target]);
      }
    }
  }

  // ---------- texts ----------

  // The text assembles, to the file of these words.
  ghost predicate AssemblesTo(lines: seq<Line>, front: seq<int>, listing: seq<seq<int>>) {
    ParseLines(lines).Ok? && Emittable(ParseLines(lines).value) &&
    ValidCode(Resolve(ParseLines(lines).value)) &&
    Image(Resolve(ParseLines(lines).value)) == File(front, listing)
  }

  // What a file of one function without a frame begins with.
  const FRONT: seq<int> := [0x53505254, 0x00000001, 0x00000000, 0x00000000, 0x00000001, 0x00000020, 0x00000020,
                            0x00000028, 0x00000028, 0x00000000]

  // Instruction k of the code is instruction k of the function, its label resolved.
  predicate Resolved(f: Func, instrs: seq<Instr<nat>>, k: nat)
    requires k < |f.body| == |instrs|
  {
    instrs[k] == Retarget(f.body[k], LabelIndex(f, f.body[k])) &&
    (f.body[k].Branch? ==> f.body[k].target in f.labels && f.labels[f.body[k].target] <= |f.body|)
  }

  lemma {:induction false} FileOf(lines: seq<Line>, p: Program, c: Code, listing: seq<seq<int>>)
    requires ParseLines(lines) == Ok(p) && Resolve(p) == c && AllDefined(p) && |p| < 1000
    requires |c.instrs| == |listing| < 1000
    requires forall k: nat {:trigger Listed(c, listing, k)} :: k < |listing| ==> Listed(c, listing, k)
    ensures ValidCode(c) && AssemblesTo(lines, FrontWords(c), listing)
  {
    hide ParseLines, Emittable, AllDefined, Flat, FrontWords;
    ResolveValid(p);
    SmallEmits(p);
    ImageListed(c, listing);
  }

  lemma {:induction false} OneFunction(lines: seq<Line>, f: Func, instrs: seq<Instr<nat>>, listing: seq<seq<int>>)
    requires ParseLines(lines) == Ok([f]) && f.frameSize == 0
    requires |f.body| == |instrs| == |listing| < 1000
    requires var c := Code(instrs, [Entry(0, 0)]);
             (forall k: nat {:trigger Resolved(f, instrs, k)} :: k < |instrs| ==> Resolved(f, instrs, k)) &&
             forall k: nat {:trigger Listed(c, listing, k)} :: k < |listing| ==> Listed(c, listing, k)
    ensures AssemblesTo(lines, FRONT, listing)
  {
    var c := Code(instrs, [Entry(0, 0)]);
    OneResolves(f, instrs);
    OneDefined(f, instrs);
    hide ParseLines, Emittable, AllDefined, Resolve, AssemblesTo;
    FileOf(lines, [f], c, listing);
    OneFront(c);
  }

  lemma {:induction false} OneFront(c: Code)
    requires ValidCode(c) && c.entries == [Entry(0, 0)]
    ensures FrontWords(c) == FRONT
  {
    assert TableWords(c, 0) + [40, 0] == [40, 0];
    assert TableWords(c, 1) == [40, 0];
  }

  lemma {:induction false} OneResolves(f: Func, instrs: seq<Instr<nat>>)
    requires f.frameSize == 0 && |f.body| == |instrs|
    requires forall k: nat {:trigger Resolved(f, instrs, k)} :: k < |instrs| ==> Resolved(f, instrs, k)
    ensures Resolve([f]) == Code(instrs, [Entry(0, 0)])
  {
    var p := [f];
    assert Start(p, 1) == |f.body|;
    forall k: nat | k < |instrs| ensures Flat(p)[k] == instrs[k] {
      FlatAt(p, 0, k);
      assert Resolved(f, instrs, k);
    }
    hide Flat;
    assert Flat(p) == instrs;
    assert Resolve(p).entries == [Entry(0, 0)];
  }

  lemma {:induction false} OneDefined(f: Func, instrs: seq<Instr<nat>>)
    requires |f.body| == |instrs|
    requires forall k: nat {:trigger Resolved(f, instrs, k)} :: k < |instrs| ==> Resolved(f, instrs, k)
    ensures AllDefined([f])
  {
    forall k | 0 <= k < |f.body| && f.body[k].Branch? ensures f.body[k].target in f.labels {
      assert Resolved(f, instrs, k);
    }
    assert LabelsDefined([f][0]);
  }

  // One function without labels, or with one.
  lemma {:induction false} PlainText(name: string, size: int, a: seq<Line>)
    requires forall k :: 0 <= k < |a| ==> Instruction(a[k]).Some?
    ensures ParseLines([FuncLine(name, size)] + a + [EndFuncLine]) == Ok([Func(name, size, Instructions(a), map[])])
  {
    hide FeedAll, Instruction;
    PlainFeed(name, size, a);
  }

  lemma {:induction false} PlainFeed(name: string, size: int, a: seq<Line>)
    requires forall k :: 0 <= k < |a| ==> Instruction(a[k]).Some?
    ensures FeedAll([FuncLine(name, size)] + a + [EndFuncLine]) ==
              Ok(Source([Func(name, size, Instructions(a), map[])], false))
  {
    hide FeedAll, Instruction;
    var f := Func(name, size, [], map[]);
    FeedFirst(name, size);
    assert [] + [f] == [f] && f.body + Instructions(a) == Instructions(a);
    FeedBlock([FuncLine(name, size)], [], f, a);
    var g := f.(body := Instructions(a));
    assert [] + [g] == [g];
    FeedEnd([FuncLine(name, size)] + a, [g]);
  }

  lemma {:induction false} LabelledText(name: string, size: int, a: seq<Line>, l: string, b: seq<Line>)
    requires forall k :: 0 <= k < |a| ==> Instruction(a[k]).Some?
    requires forall k :: 0 <= k < |b| ==> Instruction(b[k]).Some?
    requires Folds(l, l)
    ensures ParseLines([FuncLine(name, size)] + a + [LabelLine(l)] + b + [EndFuncLine]) ==
              Ok([Func(name, size, Instructions(a) + Instructions(b), map[l := |a|])])
  {
    hide FeedAll, Instruction, Folds;
    var f := Func(name, size, [], map[]);
    var t := [FuncLine(name, size)];
    FeedFirst(name, size);
    assert [] + [f] == [f] && f.body + Instructions(a) == Instructions(a);
    FeedBlock(t, [], f, a);
    var g := f.(body := Instructions(a));
    FeedLabel(t + a, [], g, l, l);
    var h := g.(labels := map[l := |a|]);
    assert g.(labels := g.labels[l := |g.body|]) == h;
    FeedBlock(t + a + [LabelLine(l)], [], h, b);
    var i := h.(body := Instructions(a) + Instructions(b));
    assert [] + [i] == [i];
    FeedEnd(t + a + [LabelLine(l)] + b, [i]);
  }

  // ---------- print_sprout: a text of six characters, printed ----------

  const SPROUT_LINES: seq<Line> :=
    [LoadLine(0, Chars([0x53, 0x50, 0x52, 0x4F, 0x55, 0x54])), InstrLine(Op(End, 0, 0, 0))]

  const SPROUT_CODE: seq<Instr<nat>> := [Load(0, 0x7FF4_5455_4F52_5053), Op(End, 0, 0, 0)]

  const SPROUT_LISTING: seq<seq<int>> := [[0x05000000, 0x7FF45455, 0x4F525053], [0x04000000]]

  lemma {:induction false} SproutFile()
    ensures AssemblesTo([FuncLine("main", 0)] + SPROUT_LINES + [EndFuncLine], FRONT, SPROUT_LISTING)
  {
    hide ParseLines, Flat, Image, Off, Emittable, Resolved, Listed;
    SproutInstructions();
    PlainText("main", 0, SPROUT_LINES);
    var f := Func("main", 0, Instructions(SPROUT_LINES), map[]);
    forall k: nat | k < 2 ensures Resolved(f, SPROUT_CODE, k) {
      SproutResolved(f, k);
    }
    var c := Code(SPROUT_CODE, [Entry(0, 0)]);
    forall k: nat | k < 2 ensures Listed(c, SPROUT_LISTING, k) {
      SproutListed(c, k);
    }
    OneFunction([FuncLine("main", 0)] + SPROUT_LINES + [EndFuncLine], f, SPROUT_CODE, SPROUT_LISTING);
  }

  lemma {:induction false} SproutInstructions()
    ensures Instruction(SPROUT_LINES[0]) == Some(Load(0, 0x7FF4_5455_4F52_5053))
    ensures Instruction(SPROUT_LINES[1]) == Some(Op(End, 0, 0, 0))
  {
    CharsWord(0x53, 0x50, 0x52, 0x4F, 0x55, 0x54);
    hide EncodeLiteral;
  }

  lemma {:induction false} SproutResolved(f: Func, k: nat)
    requires Instruction(SPROUT_LINES[0]) == Some(Load(0, 0x7FF4_5455_4F52_5053))
    requires Instruction(SPROUT_LINES[1]) == Some(Op(End, 0, 0, 0))
    requires f == Func("main", 0, Instructions(SPROUT_LINES), map[]) && k < 2
    ensures Resolved(f, SPROUT_CODE, k)
  {
    hide Instruction;
    assert f.body[k] == Instruction(SPROUT_LINES[k]).value;
  }

  lemma {:induction false} SproutListed(c: Code, k: nat)
    requires c == Code(SPROUT_CODE, [Entry(0, 0)]) && k < 2
    ensures Listed(c, SPROUT_LISTING, k)
  {
  }

  // ---------- euler: the series for e on doubles ----------

  const ONE: Literal := Double(0x3FF0_0000_0000_0000)
  const TWENTY_FIVE: Literal := Double(0x4039_0000_0000_0000)

  const EULER_SETUP: seq<Line> :=
    [LoadLine(0, ONE), LoadLine(1, ONE), LoadLine(2, ONE), LoadLine(3, ONE), LoadLine(4, TWENTY_FIVE)]

  const EULER_LOOP: seq<Line> :=
    [InstrLine(Op(Mnemonic.Div, 0, 0, 2)), InstrLine(Op(Mnemonic.Add, 1, 1, 0)), InstrLine(Op(Mnemonic.Add, 2, 2, 3)),
     InstrLine(Op(Cmp, 2, 4, 0)), InstrLine(Branch(Lt, "loop")), InstrLine(Branch(Eq, "loop")),
     InstrLine(Op(End, 1, 0, 0))]

  const EULER_CODE: seq<Instr<nat>> :=
    [Load(0, 0x3FF0_0000_0000_0000), Load(1, 0x3FF0_0000_0000_0000), Load(2, 0x3FF0_0000_0000_0000),
     Load(3, 0x3FF0_0000_0000_0000), Load(4, 0x4039_0000_0000_0000), Op(Mnemonic.Div, 0, 0, 2),
     Op(Mnemonic.Add, 1, 1, 0), Op(Mnemonic.Add, 2, 2, 3), Op(Cmp, 2, 4, 0), Branch(Lt, 5),
     Branch(Eq, 5), Op(End, 1, 0, 0)]

  const EULER_LISTING: seq<seq<int>> :=
    [[0x05000000, 0x3FF00000, 0x00000000], [0x05010000, 0x3FF00000, 0x00000000],
     [0x05020000, 0x3FF00000, 0x00000000], [0x05030000, 0x3FF00000, 0x00000000],
     [0x05040000, 0x40390000, 0x00000000], [0x03000002], [0x00010100], [0x00020203], [0x06020400],
     [0x0A000000, 0x00000064], [0x08000000, 0x00000064], [0x04010000]]

  function EulerText(): seq<Line> {
    [FuncLine("main", 0)] + EULER_SETUP + [LabelLine("loop")] + EULER_LOOP + [EndFuncLine]
  }

  lemma {:induction false} EulerFile()
    ensures AssemblesTo(EulerText(), FRONT, EULER_LISTING)
  {
    hide ParseLines, Flat, Image, Emittable, Off, Resolved, Listed;
    LabelledText("main", 0, EULER_SETUP, "loop", EULER_LOOP);
    var f := Func("main", 0, Instructions(EULER_SETUP) + Instructions(EULER_LOOP), map["loop" := 5]);
    forall k: nat | k < 12 ensures Resolved(f, EULER_CODE, k) {
      EulerResolved(f, k);
    }
    var c := Code(EULER_CODE, [Entry(0, 0)]);
    forall k: nat | k < 12 ensures Listed(c, EULER_LISTING, k) {
      EulerListed(c, k);
    }
    OneFunction(EulerText(), f, EULER_CODE, EULER_LISTING);
  }

  lemma {:induction false} EulerResolved(f: Func, k: nat)
    requires f == Func("main", 0, Instructions(EULER_SETUP) + Instructions(EULER_LOOP), map["loop" := 5]) && k < 12
    ensures Resolved(f, EULER_CODE, k)
  {
    assert f.body[k] == Instruction(if k < 5 then EULER_SETUP[k] else EULER_LOOP[k - 5]).value;
  }

  lemma {:induction false} EulerListed(c: Code, k: nat)
    requires c == Code(EULER_CODE, [Entry(0, 0)]) && k < 12
    ensures Listed(c, EULER_LISTING, k)
  {
    EulerAddress(c);
    hide Addr, Off;
  }

  lemma {:induction false} EulerAddress(c: Code)
    requires c == Code(EULER_CODE, [Entry(0, 0)])
    ensures Addr(c, 5) == 0x64
  {
    OffRun(EULER_CODE, 0, 5, 12);
  }

  // ---------- fib-optimized: Fibonacci numbers, printed one by one ----------

  const FIB_SETUP: seq<Line> :=
    [LoadLine(1, Int(1)), LoadLine(32, Int(56)), LoadLine(33, Int(1)), LoadLine(34, Int(1)), LoadLine(35, Int(0)),
     LoadLine(30, Int(0))]

  const FIB_LOOP: seq<Line> :=
    [InstrLine(Op(Mov, 35, 33, 0)), InstrLine(Op(Mnemonic.Add, 33, 33, 34)), InstrLine(Op(DbgRet, 33, 0, 0)),
     InstrLine(Op(Mov, 34, 35, 0)), InstrLine(Op(Mnemonic.Add, 30, 30, 1)), InstrLine(Op(Cmp, 30, 32, 0)),
     InstrLine(Branch(Ne, "fibonacci")), InstrLine(Op(End, 1, 0, 0))]

  const FIB_CODE: seq<Instr<nat>> :=
    [Load(1, 0x7FF1_0000_0000_0001), Load(32, 0x7FF1_0000_0000_0038), Load(33, 0x7FF1_0000_0000_0001),
     Load(34, 0x7FF1_0000_0000_0001), Load(35, 0x7FF1_0000_0000_0000), Load(30, 0x7FF1_0000_0000_0000),
     Op(Mov, 35, 33, 0), Op(Mnemonic.Add, 33, 33, 34), Op(DbgRet, 33, 0, 0), Op(Mov, 34, 35, 0),
     Op(Mnemonic.Add, 30, 30, 1), Op(Cmp, 30, 32, 0), Branch(Ne, 6), Op(End, 1, 0, 0)]

  const FIB_LISTING: seq<seq<int>> :=
    [[0x05010000, 0x7FF10000, 0x00000001], [0x05200000, 0x7FF10000, 0x00000038],
     [0x05210000, 0x7FF10000, 0x00000001], [0x05220000, 0x7FF10000, 0x00000001],
     [0x05230000, 0x7FF10000, 0x00000000], [0x051E0000, 0x7FF10000, 0x00000000], [0x12232100], [0x00212122],
     [0x07210000], [0x12222300], [0x001E1E01], [0x061E2000], [0x09000000, 0x00000070], [0x04010000]]

  function FibText(): seq<Line> {
    [FuncLine("main", 0)] + FIB_SETUP + [LabelLine("fibonacci")] + FIB_LOOP + [EndFuncLine]
  }

  lemma {:induction false} FibFile()
    ensures AssemblesTo(FibText(), FRONT, FIB_LISTING)
  {
    hide ParseLines, Flat, Image, Emittable, Off, Resolved, Listed;
    LabelledText("main", 0, FIB_SETUP, "fibonacci", FIB_LOOP);
    var f := Func("main", 0, Instructions(FIB_SETUP) + Instructions(FIB_LOOP), map["fibonacci" := 6]);
    forall k: nat | k < 14 ensures Resolved(f, FIB_CODE, k) {
      FibResolved(f, k);
    }
    var c := Code(FIB_CODE, [Entry(0, 0)]);
    forall k: nat | k < 14 ensures Listed(c, FIB_LISTING, k) {
      FibListed(c, k);
    }
    OneFunction(FibText(), f, FIB_CODE, FIB_LISTING);
  }

  lemma {:induction false} FibResolved(f: Func, k: nat)
    requires f == Func("main", 0, Instructions(FIB_SETUP) + Instructions(FIB_LOOP), map["fibonacci" := 6]) && k < 14
    ensures Resolved(f, FIB_CODE, k)
  {
    if k < 6 {
      assert f.body[k] == Instruction(FIB_SETUP[k]).value;
    } else {
      assert f.body[k] == Instruction(FIB_LOOP[k - 6]).value;
    }
  }

  lemma {:induction false} FibListed(c: Code, k: nat)
    requires c == Code(FIB_CODE, [Entry(0, 0)]) && k < 14
    ensures Listed(c, FIB_LISTING, k)
  {
    FibAddress(c);
    hide Addr, Off;
  }

  lemma {:induction false} FibAddress(c: Code)
    requires c == Code(FIB_CODE, [Entry(0, 0)])
    ensures Addr(c, 6) == 0x70
  {
    OffRun(FIB_CODE, 0, 6, 12);
  }

  // ---------- collatz: steps of the 3n + 1 sequence, with branches ahead and back ----------

  const COLLATZ_SETUP: seq<Line> :=
    [LoadLine(0, Int(670617279)), LoadLine(1, Int(0)), LoadLine(2, Int(1)), LoadLine(3, Int(2)), LoadLine(4, Int(3))]

  const COLLATZ_LOOP: seq<Line> :=
    [InstrLine(Op(Cmp, 0, 2, 0)), InstrLine(Branch(Eq, "done")), InstrLine(Op(Mnemonic.Add, 1, 1, 2)),
     InstrLine(Op(Mnemonic.Div, 5, 0, 3)), InstrLine(Op(Mnemonic.Mul, 6, 5, 3)), InstrLine(Op(Cmp, 6, 0, 0)),
     InstrLine(Branch(Eq, "is_even")), InstrLine(Op(Mnemonic.Mul, 0, 0, 4)), InstrLine(Op(Mnemonic.Add, 0, 0, 2)),
     InstrLine(Branch(Ne, "loop"))]

  const COLLATZ_EVEN: seq<Line> :=
    [InstrLine(Op(Mnemonic.Div, 0, 0, 3)), InstrLine(Op(Cmp, 2, 2, 0)), InstrLine(Branch(Eq, "loop"))]

  const COLLATZ_DONE: seq<Line> := [InstrLine(Op(End, 1, 0, 0))]

  const COLLATZ_SETUP_CODE: seq<Instr<nat>> :=
    [Load(0, 0x7FF1_0000_27F8_CEBF), Load(1, 0x7FF1_0000_0000_0000), Load(2, 0x7FF1_0000_0000_0001),
     Load(3, 0x7FF1_0000_0000_0002), Load(4, 0x7FF1_0000_0000_0003)]

  const COLLATZ_LOOP_CODE: seq<Instr<nat>> :=
    [Op(Cmp, 0, 2, 0), Branch(Eq, 18), Op(Mnemonic.Add, 1, 1, 2), Op(Mnemonic.Div, 5, 0, 3),
     Op(Mnemonic.Mul, 6, 5, 3), Op(Cmp, 6, 0, 0), Branch(Eq, 15), Op(Mnemonic.Mul, 0, 0, 4),
     Op(Mnemonic.Add, 0, 0, 2), Branch(Ne, 5)]

  const COLLATZ_END_CODE: seq<Instr<nat>> :=
    [Op(Mnemonic.Div, 0, 0, 3), Op(Cmp, 2, 2, 0), Branch(Eq, 5), Op(End, 1, 0, 0)]

  const COLLATZ_SETUP_LISTING: seq<seq<int>> :=
    [[0x05000000, 0x7FF10000, 0x27F8CEBF], [0x05010000, 0x7FF10000, 0x00000000],
     [0x05020000, 0x7FF10000, 0x00000001], [0x05030000, 0x7FF10000, 0x00000002],
     [0x05040000, 0x7FF10000, 0x00000003]]

  const COLLATZ_LOOP_LISTING: seq<seq<int>> :=
    [[0x06000200], [0x08000000, 0x000000A8], [0x00010102], [0x03050003], [0x02060503], [0x06060000],
     [0x08000000, 0x00000098], [0x02000004], [0x00000002], [0x09000000, 0x00000064]]

  const COLLATZ_END_LISTING: seq<seq<int>> :=
    [[0x03000003], [0x06020200], [0x08000000, 0x00000064], [0x04010000]]

  function CollatzCode(): seq<Instr<nat>> {
    COLLATZ_SETUP_CODE + COLLATZ_LOOP_CODE + COLLATZ_END_CODE
  }

  function CollatzListing(): seq<seq<int>> {
    COLLATZ_SETUP_LISTING + COLLATZ_LOOP_LISTING + COLLATZ_END_LISTING
  }

  const COLLATZ_LABELS: map<string, nat> := map["loop" := 5, "is_even" := 15, "done" := 18]

  function CollatzText(): seq<Line> {
    [FuncLine("main", 0)] + COLLATZ_SETUP + [LabelLine("loop")] + COLLATZ_LOOP + [LabelLine("is_even")] +
    COLLATZ_EVEN + [LabelLine("done")] + COLLATZ_DONE + [EndFuncLine]
  }

  function CollatzFunc(): Func {
    Func("main", 0, Instructions(COLLATZ_SETUP) + Instructions(COLLATZ_LOOP) + Instructions(COLLATZ_EVEN) +
                    Instructions(COLLATZ_DONE), COLLATZ_LABELS)
  }

  lemma {:induction false} CollatzFile()
    ensures AssemblesTo(CollatzText(), FRONT, CollatzListing())
  {
    hide ParseLines, Resolved, Listed, CollatzFunc, CollatzText, AssemblesTo;
    CollatzParses();
    var f := CollatzFunc();
    assert |f.body| == 19 && f.frameSize == 0 by {
      CollatzSize();
    }
    forall k: nat | k < 19 ensures Resolved(f, CollatzCode(), k) {
      CollatzResolved(f, k);
    }
    var c := Code(CollatzCode(), [Entry(0, 0)]);
    forall k: nat | k < 19 ensures Listed(c, CollatzListing(), k) {
      CollatzListed(c, k);
    }
    OneFunction(CollatzText(), f, CollatzCode(), CollatzListing());
  }

  lemma {:induction false} CollatzSize()
    ensures |CollatzFunc().body| == 19 && CollatzFunc().frameSize == 0
  {
    hide Instruction;
  }

  // A label line and the instruction lines behind it.
  lemma {:induction false} FeedPart(before: seq<Line>, f: Func, l: string, lines: seq<Line>, g: Func)
    requires FeedAll(before) == Ok(Source([f], true)) && Folds(l, l)
    requires forall k :: 0 <= k < |lines| ==> Instruction(lines[k]).Some?
    requires g == f.(body := f.body + Instructions(lines), labels := f.labels[l := |f.body|])
    ensures FeedAll(before + [LabelLine(l)] + lines) == Ok(Source([g], true))
  {
    hide FeedAll, Instruction, Folds;
    var h := f.(labels := f.labels[l := |f.body|]);
    assert [] + [f] == [f] && [] + [h] == [h] && [] + [g] == [g];
    FeedLabel(before, [], f, l, l);
    FeedBlock(before + [LabelLine(l)], [], h, lines);
  }

  lemma {:induction false} CollatzParses()
    ensures ParseLines(CollatzText()) == Ok([CollatzFunc()])
  {
    hide FeedAll, EncodeInt, Folds;
    var t := [FuncLine("main", 0)];
    var f := Func("main", 0, [], map[]);
    FeedFirst("main", 0);
    assert [] + [f] == [f];
    FeedBlock(t, [], f, COLLATZ_SETUP);
    var g := f.(body := f.body + Instructions(COLLATZ_SETUP));
    assert [] + [g] == [g];
    LabelsFold();
    var h := g.(body := g.body + Instructions(COLLATZ_LOOP), labels := map["loop" := 5]);
    assert g.labels["loop" := |g.body|] == h.labels;
    FeedPart(t + COLLATZ_SETUP, g, "loop", COLLATZ_LOOP, h);
    var i := h.(body := h.body + Instructions(COLLATZ_EVEN), labels := map["loop" := 5, "is_even" := 15]);
    assert h.labels["is_even" := |h.body|] == i.labels;
    var u := t + COLLATZ_SETUP + [LabelLine("loop")] + COLLATZ_LOOP;
    FeedPart(u, h, "is_even", COLLATZ_EVEN, i);
    var j := i.(body := i.body + Instructions(COLLATZ_DONE), labels := COLLATZ_LABELS);
    assert i.labels["done" := |i.body|] == j.labels;
    FeedPart(u + [LabelLine("is_even")] + COLLATZ_EVEN, i, "done", COLLATZ_DONE, j);
    assert j == CollatzFunc();
    FeedEnd(u + [LabelLine("is_even")] + COLLATZ_EVEN + [LabelLine("done")] + COLLATZ_DONE, [j]);
  }

  lemma {:induction false} LabelsFold()
    ensures Folds("loop", "loop") && Folds("is_even", "is_even") && Folds("done", "done")
  {
  }

  lemma {:induction false} CollatzResolved(f: Func, k: nat)
    requires f == CollatzFunc() && k < 19
    ensures |f.body| == 19 == |CollatzCode()| && Resolved(f, CollatzCode(), k)
  {
    var i := CollatzCode()[k];
    CollatzLine(f, k);
    hide CollatzCode, CollatzFunc, Instruction;
    if k < 5 {
      SetupResolved(f, i, k);
    } else if k < 15 {
      LoopResolved(f, i, k - 5);
    } else {
      EndResolved(f, i, k - 15);
    }
  }

  lemma {:induction false} CollatzLine(f: Func, k: nat)
    requires f == CollatzFunc() && k < 19
    ensures |CollatzCode()| == 19 == |f.body| && f.labels == COLLATZ_LABELS
    ensures CollatzCode()[k] == if k < 5 then COLLATZ_SETUP_CODE[k] else if k < 15 then COLLATZ_LOOP_CODE[k - 5]
            else COLLATZ_END_CODE[k - 15]
    ensures f.body[k] == Instruction(if k < 5 then COLLATZ_SETUP[k] else if k < 15 then COLLATZ_LOOP[k - 5]
                                     else if k < 18 then COLLATZ_EVEN[k - 15] else COLLATZ_DONE[0]).value
  {
    hide Instruction;
  }

  // Instruction k, with its label resolved.
  predicate Retargeted(f: Func, line: Line, i: Instr<nat>) {
    Instruction(line).Some? &&
    var j := Instruction(line).value;
    i == Retarget(j, LabelIndex(f, j)) && (j.Branch? ==> j.target in f.labels && f.labels[j.target] <= 19)
  }

  lemma {:induction false} SetupResolved(f: Func, i: Instr<nat>, k: nat)
    requires k < 5 && i == COLLATZ_SETUP_CODE[k]
    ensures Retargeted(f, COLLATZ_SETUP[k], i)
  {
  }

  lemma {:induction false} LoopResolved(f: Func, i: Instr<nat>, k: nat)
    requires k < 10 && i == COLLATZ_LOOP_CODE[k] && f.labels == COLLATZ_LABELS
    ensures Retargeted(f, COLLATZ_LOOP[k], i)
  {
    hide EncodeLiteral;
  }

  lemma {:induction false} EndResolved(f: Func, i: Instr<nat>, k: nat)
    requires k < 4 && i == COLLATZ_END_CODE[k] && f.labels == COLLATZ_LABELS
    ensures Retargeted(f, if k < 3 then COLLATZ_EVEN[k] else COLLATZ_DONE[0], i)
  {
    hide EncodeLiteral;
  }

  lemma {:induction false} CollatzListed(c: Code, k: nat)
    requires c == Code(CollatzCode(), [Entry(0, 0)]) && k < 19
    ensures |c.instrs| == 19 == |CollatzListing()| && Listed(c, CollatzListing(), k)
  {
    CollatzAddresses(c);
    hide Addr, Off, WordsOf;
    if k < 5 {
      SetupWords(k);
    } else if k < 15 {
      LoopWords(k - 5);
    } else {
      EndWords(k - 15);
    }
  }

  // The words of an instruction whose branches go to the addresses of the labels.
  predicate Worded(i: Instr<nat>, ws: seq<int>) {
    ws == WordsOf(i, if i.Branch? then (if i.target == 5 then 0x64 else if i.target == 15 then 0x98 else 0xA8) else 0)
  }

  lemma {:induction false} SetupWords(k: nat)
    requires k < 5
    ensures Worded(COLLATZ_SETUP_CODE[k], COLLATZ_SETUP_LISTING[k]) && !COLLATZ_SETUP_CODE[k].Branch?
  {
  }

  lemma {:induction false} LoopWords(k: nat)
    requires k < 10
    ensures Worded(COLLATZ_LOOP_CODE[k], COLLATZ_LOOP_LISTING[k])
    ensures COLLATZ_LOOP_CODE[k].Branch? ==> COLLATZ_LOOP_CODE[k].target in {5, 15, 18}
  {
  }

  lemma {:induction false} EndWords(k: nat)
    requires k < 4
    ensures Worded(COLLATZ_END_CODE[k], COLLATZ_END_LISTING[k])
    ensures COLLATZ_END_CODE[k].Branch? ==> COLLATZ_END_CODE[k].target in {5, 15, 18}
  {
  }

  lemma {:induction false} OffJoin<L>(a: seq<Instr<L>>, b: seq<Instr<L>>, k: nat)
    requires k <= |b|
    ensures Off(a + b, |a| + k) == Off(a, |a|) + Off(b, k)
    decreases k
  {
    if k > 0 {
      OffJoin(a, b, k - 1);
    } else {
      OffPrefix(a, b, |a|);
    }
  }

  lemma {:induction false} OffPrefix<L>(a: seq<Instr<L>>, b: seq<Instr<L>>, k: nat)
    requires k <= |a|
    ensures Off(a + b, k) == Off(a, k)
  {
    if k > 0 {
      OffPrefix(a, b, k - 1);
    }
  }

  lemma {:induction false} CollatzAddresses(c: Code)
    requires c == Code(CollatzCode(), [Entry(0, 0)])
    ensures |c.instrs| == 19 && Addr(c, 5) == 0x64 && Addr(c, 15) == 0x98 && Addr(c, 18) == 0xA8
  {
    var a, b, d := COLLATZ_SETUP_CODE, COLLATZ_LOOP_CODE, COLLATZ_END_CODE;
    CollatzOffsets();
    hide Off;
    OffJoin(a + b, d, 0);
    OffJoin(a + b, d, 3);
    OffJoin(a, b, 10);
    OffPrefix(a + b, d, 5);
    OffPrefix(a, b, 5);
  }

  lemma {:induction false} CollatzOffsets()
    ensures Off(COLLATZ_SETUP_CODE, 5) == 60 && Off(COLLATZ_LOOP_CODE, 10) == 52
    ensures Off(COLLATZ_END_CODE, 0) == 0 && Off(COLLATZ_END_CODE, 3) == 16
  {
    OffRun(COLLATZ_SETUP_CODE, 0, 5, 12);
    OffRun(COLLATZ_LOOP_CODE, 0, 1, 4);
    OffRun(COLLATZ_LOOP_CODE, 1, 2, 8);
    OffRun(COLLATZ_LOOP_CODE, 2, 6, 4);
    OffRun(COLLATZ_LOOP_CODE, 6, 7, 8);
    OffRun(COLLATZ_LOOP_CODE, 7, 9, 4);
    OffRun(COLLATZ_LOOP_CODE, 9, 10, 8);
    OffRun(COLLATZ_END_CODE, 0, 2, 4);
    OffRun(COLLATZ_END_CODE, 2, 3, 8);
  }

  // ---------- fibonacci: a function that calls itself ----------

  const CALLER: seq<Line> := [LoadLine(0, Int(33)), CallLine(1), InstrLine(Op(End, 10, 0, 0))]

  const CALLEE: seq<Line> :=
    [LoadLine(15, Int(1)), InstrLine(Op(Cmp, 0, 15, 0)), InstrLine(Branch(Gt, "recurse")),
     InstrLine(Op(Mnemonic.Add, 255, 255, 255)), InstrLine(Op(Mov, 10, 0, 0)), InstrLine(Op(Ret, 0, 0, 0))]

  const RECURSION: seq<Line> :=
    [InstrLine(Op(Push, 0, 0, 0)), InstrLine(Op(Mnemonic.Sub, 0, 0, 15)), CallLine(1), InstrLine(Op(Pop, 0, 0, 0)),
     InstrLine(Op(Push, 10, 0, 0)), LoadLine(15, Int(2)), InstrLine(Op(Mnemonic.Sub, 0, 0, 15)), CallLine(1),
     InstrLine(Op(Pop, 1, 0, 0)), InstrLine(Op(Mnemonic.Add, 10, 1, 10)), InstrLine(Op(Ret, 0, 0, 0))]

  const CALLER_CODE: seq<Instr<nat>> := [Load(0, 0x7FF1_0000_0000_0021), Call(1), Op(End, 10, 0, 0)]

  const CALLEE_CODE: seq<Instr<nat>> :=
    [Load(15, 0x7FF1_0000_0000_0001), Op(Cmp, 0, 15, 0), Branch(Gt, 9), Op(Mnemonic.Add, 255, 255, 255),
     Op(Mov, 10, 0, 0), Op(Ret, 0, 0, 0)]

  const RECURSION_CODE: seq<Instr<nat>> :=
    [Op(Push, 0, 0, 0), Op(Mnemonic.Sub, 0, 0, 15), Call(1), Op(Pop, 0, 0, 0), Op(Push, 10, 0, 0),
     Load(15, 0x7FF1_0000_0000_0002), Op(Mnemonic.Sub, 0, 0, 15), Call(1), Op(Pop, 1, 0, 0),
     Op(Mnemonic.Add, 10, 1, 10), Op(Ret, 0, 0, 0)]

  const FIBONACCI_FRONT: seq<int> :=
    [0x53505254, 0x00000001, 0x00000000, 0x00000000, 0x00000002, 0x00000020, 0x00000020, 0x00000030,
     0x00000030, 0x00000000, 0x00000044, 0x00000000]

  const CALLER_LISTING: seq<seq<int>> := [[0x05000000, 0x7FF10000, 0x00000021], [0x0C000001], [0x040A0000]]

  const CALLEE_LISTING: seq<seq<int>> :=
    [[0x050F0000, 0x7FF10000, 0x00000001], [0x06000F00], [0x0B000000, 0x00000068], [0x00FFFFFF], [0x120A0000],
     [0x0D000000]]

  const RECURSION_LISTING: seq<seq<int>> :=
    [[0x0E000000], [0x0100000F], [0x0C000001], [0x0F000000], [0x0E0A0000], [0x050F0000, 0x7FF10000, 0x00000002],
     [0x0100000F], [0x0C000001], [0x0F010000], [0x000A010A], [0x0D000000]]

  function FibonacciText(): seq<Line> {
    [FuncLine("main", 0)] + CALLER + [EndFuncLine] + [FuncLine("fib", 0)] + CALLEE + [LabelLine("recurse")] +
    RECURSION + [EndFuncLine]
  }

  function CallerFunc(): Func {
    Func("main", 0, Instructions(CALLER), map[])
  }

  function FibFunc(): Func {
    Func("fib", 0, Instructions(CALLEE) + Instructions(RECURSION), map["recurse" := 6])
  }

  function FibonacciCode(): Code {
    Code(CALLER_CODE + CALLEE_CODE + RECURSION_CODE, [Entry(0, 0), Entry(3, 0)])
  }

  function FibonacciListing(): seq<seq<int>> {
    CALLER_LISTING + CALLEE_LISTING + RECURSION_LISTING
  }

  lemma {:induction false} FibonacciFile()
    ensures AssemblesTo(FibonacciText(), FIBONACCI_FRONT, FibonacciListing())
  {
    hide ParseLines, Listed, AllDefined, AssemblesTo, FrontWords, Resolve, FibonacciText, CallerFunc, FibFunc;
    FibonacciParses();
    FibonacciResolves();
    FibonacciDefined();
    var c := FibonacciCode();
    forall k: nat | k < 20 ensures Listed(c, FibonacciListing(), k) {
      FibonacciListed(k);
    }
    FileOf(FibonacciText(), [CallerFunc(), FibFunc()], c, FibonacciListing());
    FibonacciFront();
  }

  lemma {:induction false} FibonacciParses()
    ensures ParseLines(FibonacciText()) == Ok([CallerFunc(), FibFunc()])
  {
    hide FeedAll, CallerFunc, FibFunc;
    CallerParses();
    var u := [FuncLine("main", 0)] + CALLER + [EndFuncLine];
    FeedFunc(u, [CallerFunc()], "fib", 0);
    CalleeParses(u + [FuncLine("fib", 0)], CallerFunc());
    FeedEnd(u + [FuncLine("fib", 0)] + CALLEE + [LabelLine("recurse")] + RECURSION, [CallerFunc()] + [FibFunc()]);
    assert [CallerFunc()] + [FibFunc()] == [CallerFunc(), FibFunc()];
  }

  lemma {:induction false} CallerParses()
    ensures FeedAll([FuncLine("main", 0)] + CALLER + [EndFuncLine]) == Ok(Source([CallerFunc()], false))
  {
    CallerInstructions();
    hide FeedAll, Instruction, CALLER;
    PlainFeed("main", 0, CALLER);
  }

  lemma {:induction false} CallerInstructions()
    ensures forall k :: 0 <= k < |CALLER| ==> Instruction(CALLER[k]).Some?
  {
    hide EncodeInt;
  }

  lemma {:induction false} CalleeParses(before: seq<Line>, main: Func)
    requires FeedAll(before) == Ok(Source([main] + [Func("fib", 0, [], map[])], true))
    ensures FeedAll(before + CALLEE + [LabelLine("recurse")] + RECURSION) == Ok(Source([main] + [FibFunc()], true))
  {
    hide FeedAll, EncodeInt, Folds;
    var g := Func("fib", 0, [], map[]);
    assert g.body + Instructions(CALLEE) == Instructions(CALLEE);
    FeedBlock(before, [main], g, CALLEE);
    var h := g.(body := Instructions(CALLEE));
    assert Folds("recurse", "recurse") by {
      RecurseFolds();
    }
    FeedLabel(before + CALLEE, [main], h, "recurse", "recurse");
    var i := h.(labels := map["recurse" := 6]);
    assert h.(labels := h.labels["recurse" := |h.body|]) == i;
    FeedBlock(before + CALLEE + [LabelLine("recurse")], [main], i, RECURSION);
    assert i.(body := i.body + Instructions(RECURSION)) == FibFunc();
  }

  lemma {:induction false} RecurseFolds()
    ensures Folds("recurse", "recurse")
  {
  }

  lemma {:induction false} FibonacciSizes()
    ensures |CallerFunc().body| == 3 && |FibFunc().body| == 17
    ensures var p := [CallerFunc(), FibFunc()];
            Start(p, 0) == 0 && Start(p, 1) == 3 && Start(p, 2) == 20
  {
    hide Instruction;
  }

  lemma {:induction false} FibonacciDefined()
    ensures AllDefined([CallerFunc(), FibFunc()])
  {
    var p := [CallerFunc(), FibFunc()];
    assert LabelsDefined(CallerFunc()) by {
      CallerDefined();
    }
    assert LabelsDefined(FibFunc()) by {
      FibDefined();
    }
    hide LabelsDefined, CallerFunc, FibFunc;
    assert forall n :: 0 <= n < 2 ==> p[n] == CallerFunc() || p[n] == FibFunc();
  }

  lemma {:induction false} CallerDefined()
    ensures LabelsDefined(CallerFunc())
  {
    hide EncodeInt;
  }

  lemma {:induction false} FibDefined()
    ensures LabelsDefined(FibFunc())
  {
    forall k | 0 <= k < 17 ensures FibFunc().body[k].Branch? ==> FibFunc().body[k].target == "recurse" {
      if k < 6 {
        CalleeLine(k);
      } else {
        RecursionLine(k - 6);
      }
    }
  }

  lemma {:induction false} CalleeLine(k: nat)
    requires k < 6
    ensures var i := Instruction(CALLEE[k]).value;
            (i.Branch? ==> i.target == "recurse") && CALLEE_CODE[k] == Retarget(i, 9)
  {
  }

  lemma {:induction false} RecursionLine(k: nat)
    requires k < 11
    ensures var i := Instruction(RECURSION[k]).value; !i.Branch? && RECURSION_CODE[k] == Retarget(i, 3)
  {
  }

  lemma {:induction false} CallerLine(k: nat)
    requires k < 3
    ensures var i := Instruction(CALLER[k]).value; !i.Branch? && CALLER_CODE[k] == Retarget(i, 0)
  {
  }

  lemma {:induction false} FibonacciResolves()
    ensures Resolve([CallerFunc(), FibFunc()]) == FibonacciCode()
  {
    var p, c := [CallerFunc(), FibFunc()], FibonacciCode();
    FibonacciSizes();
    forall k: nat | k < 20 ensures Flat(p)[k] == c.instrs[k] {
      FibonacciInstr(k);
    }
    hide Flat, CallerFunc, FibFunc, FibonacciCode;
    assert |c.instrs| == 20 && c.entries == [Entry(0, 0), Entry(3, 0)] by {
      FibonacciCodeSize();
    }
    assert Flat(p) == c.instrs;
    assert CallerFunc().frameSize == FibFunc().frameSize == 0 by {
      NoFrames();
    }
    assert Resolve(p).entries == [Entry(0, 0), Entry(3, 0)];
  }

  lemma {:induction false} NoFrames()
    ensures CallerFunc().frameSize == FibFunc().frameSize == 0
  {
  }

  lemma {:induction false} FibonacciCodeSize()
    ensures |FibonacciCode().instrs| == 20 == |FibonacciListing()|
    ensures FibonacciCode().entries == [Entry(0, 0), Entry(3, 0)]
  {
  }

  lemma {:induction false} FibonacciInstr(k: nat)
    requires k < 20
    ensures var p := [CallerFunc(), FibFunc()]; |Flat(p)| == 20 && Flat(p)[k] == FibonacciCode().instrs[k]
  {
    var p := [CallerFunc(), FibFunc()];
    FibonacciSizes();
    if k < 3 {
      FlatAt(p, 0, k);
      CallerLine(k);
    } else {
      FlatAt(p, 1, k - 3);
      if k < 9 {
        CalleeLine(k - 3);
      } else {
        RecursionLine(k - 9);
      }
    }
    hide Flat, Instruction;
  }

  lemma {:induction false} CallOffsets()
    ensures Off(CALLER_CODE, 0) == 0 && Off(CALLER_CODE, 3) == 20 && Off(CALLEE_CODE, 0) == 0
    ensures Off(CALLEE_CODE, 6) == 36 && Off(RECURSION_CODE, 0) == 0
  {
    OffRun(CALLER_CODE, 0, 1, 12);
    OffRun(CALLER_CODE, 1, 3, 4);
    OffRun(CALLEE_CODE, 0, 1, 12);
    OffRun(CALLEE_CODE, 1, 2, 4);
    OffRun(CALLEE_CODE, 2, 3, 8);
    OffRun(CALLEE_CODE, 3, 6, 4);
  }

  lemma {:induction false} FibonacciOffsets()
    ensures var c := FibonacciCode(); Addr(c, 0) == 0x30 && Addr(c, 3) == 0x44 && Addr(c, 9) == 0x68
  {
    var a, b, d := CALLER_CODE, CALLEE_CODE, RECURSION_CODE;
    CallOffsets();
    hide Off;
    OffPrefix(a + b, d, 0);
    OffPrefix(a, b, 0);
    OffJoin(a, b, 0);
    OffJoin(a, b, 6);
    OffPrefix(a + b, d, 3);
    OffJoin(a + b, d, 0);
  }

  lemma {:induction false} FibonacciFront()
    ensures ValidCode(FibonacciCode()) ==> FrontWords(FibonacciCode()) == FIBONACCI_FRONT
  {
    var c := FibonacciCode();
    FibonacciOffsets();
    hide Addr, Off;
    if ValidCode(c) {
      assert TableWords(c, 0) + [0x30, 0] == [0x30, 0];
      assert TableWords(c, 1) == [0x30, 0];
      assert [0x30, 0] + [0x44, 0] == [0x30, 0, 0x44, 0];
      assert TableWords(c, 2) == [0x30, 0, 0x44, 0];
    }
  }

  lemma {:induction false} FibonacciListed(k: nat)
    requires k < 20
    ensures |FibonacciCode().instrs| == 20 == |FibonacciListing()|
    ensures Listed(FibonacciCode(), FibonacciListing(), k)
  {
    FibonacciOffsets();
    hide Addr, Off, WordsOf;
    if k < 3 {
      CallerWords(k);
    } else if k < 9 {
      CalleeWords(k - 3);
    } else {
      RecursionWords(k - 9);
    }
  }

  lemma {:induction false} CallerWords(k: nat)
    requires k < 3
    ensures !CALLER_CODE[k].Branch? && CALLER_LISTING[k] == WordsOf(CALLER_CODE[k], 0)
  {
  }

  lemma {:induction false} CalleeWords(k: nat)
    requires k < 6
    ensures CALLEE_CODE[k].Branch? ==> CALLEE_CODE[k].target == 9
    ensures CALLEE_LISTING[k] == WordsOf(CALLEE_CODE[k], if CALLEE_CODE[k].Branch? then 0x68 else 0)
  {
  }

  lemma {:induction false} RecursionWords(k: nat)
    requires k < 11
    ensures !RECURSION_CODE[k].Branch? && RECURSION_LISTING[k] == WordsOf(RECURSION_CODE[k], 0)
  {
  }
}
