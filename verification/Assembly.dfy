// What an assembly text means, independently of how the assembler lays it out:
// functions with labels, labels resolved to instruction indices, and the image that
// a list of resolved instructions stands for (tools/assembler/assembler.py:384-448).
module Assembly {
  import opened Words
  import opened Wrappers
  import opened Bytes
  import opened Isa
  import opened Chunks
  import opened Literals

  datatype AsmError =
    | NestedFunc | StrayEndFunc | OutsideFunc | LiteralTooLong | IndexOutOfRange | Unterminated
    | UndefinedLabel | AddressOutOfRange

  // labels: name -> index of the instruction the label precedes.
  datatype Func = Func(name: string, frameSize: int, body: seq<Instr<string>>, labels: map<string, nat>)

  type Program = seq<Func>

  // ---------- reading the text, line by line ----------

  type PlainInstr = i: Instr<string> | !i.Load? && !i.Call? witness Op(Ret, 0, 0, 0)

  datatype Line =
    | FuncLine(name: string, frameSize: int)
    | EndFuncLine
    | LabelLine(name: string)
    | LoadLine(rd: Reg, literal: Literal)
    | CallLine(index: int)
    | InstrLine(instr: PlainInstr)

  datatype Source = Source(funcs: Program, open: bool)

  predicate ValidFunc(f: Func) {
    forall l :: l in f.labels ==> f.labels[l] <= |f.body|
  }

  predicate ValidProgram(p: Program) {
    forall k :: 0 <= k < |p| ==> ValidFunc(p[k])
  }

  predicate ValidSource(s: Source) {
    ValidProgram(s.funcs) && (s.open ==> s.funcs != [])
  }

  function LowerChar(c: char): char {
    if 'A' <= c <= 'Z' then c - 'A' + 'a' else c
  }

  function Lower(s: string): (r: string)
    ensures |r| == |s|
    ensures forall k :: 0 <= k < |s| ==> !('A' <= r[k] <= 'Z')
  {
    seq(|s|, k requires 0 <= k < |s| => LowerChar(s[k]))
  }

  // r is l with every capital, codes 65 to 90, replaced by the letter 32 codes up.
  predicate Folds(l: string, r: string) {
    |r| == |l| && forall k :: 0 <= k < |l| ==> FoldsChar(l[k], r[k])
  }

  predicate FoldsChar(c: char, d: char) {
    if 65 <= c as int <= 90 then d as int == c as int + 32 else d == c
  }

  lemma {:induction false} LowerFolds(l: string, r: string)
    ensures Lower(l) == r <==> Folds(l, r)
  {
    forall k | 0 <= k < |l| == |r| ensures LowerChar(l[k]) == r[k] <==> FoldsChar(l[k], r[k]) {
      CharFolds(l[k], r[k]);
    }
    hide LowerChar, FoldsChar;
    if Folds(l, r) {
      assert forall k :: 0 <= k < |l| ==> Lower(l)[k] == r[k];
    }
  }

  lemma {:induction false} CharFolds(c: char, d: char)
    ensures LowerChar(c) == d <==> FoldsChar(c, d)
  {
  }

  function Append(f: Func, i: Instr<string>): Func {
    f.(body := f.body + [i])
  }

  function SetLast<T>(s: seq<T>, t: T): seq<T>
    requires s != []
  {
    s[|s| - 1 := t]
  }

  function Feed(s: Source, line: Line): (r: Result<Source, AsmError>)
    requires ValidSource(s)
    ensures r.Ok? ==> ValidSource(r.value)
  {
    match line
    case FuncLine(name, size) =>
      if s.open then Err(NestedFunc) else Ok(Source(s.funcs + [Func(name, size, [], map[])], true))
    case EndFuncLine =>
      if s.open then Ok(s.(open := false)) else Err(StrayEndFunc)
    case LabelLine(name) =>
      if !s.open then Err(OutsideFunc)
      else
        var f := s.funcs[|s.funcs| - 1];
        Ok(s.(funcs := SetLast(s.funcs, f.(labels := f.labels[Lower(name) := |f.body|]))))
    case LoadLine(rd, literal) =>
      if !s.open then Err(OutsideFunc)
      else
        var w := EncodeLiteral(literal);
        if w.None? then Err(LiteralTooLong)
        else Ok(s.(funcs := SetLast(s.funcs, Append(s.funcs[|s.funcs| - 1], Load(rd, w.value)))))
    case CallLine(index) =>
      if !s.open then Err(OutsideFunc)
      else if !(0 <= index < 0x100_0000) then Err(IndexOutOfRange)
      else Ok(s.(funcs := SetLast(s.funcs, Append(s.funcs[|s.funcs| - 1], Call(index)))))
    case InstrLine(i) =>
      if !s.open then Err(OutsideFunc)
      else Ok(s.(funcs := SetLast(s.funcs, Append(s.funcs[|s.funcs| - 1], i))))
  }

  function FeedAll(lines: seq<Line>): (r: Result<Source, AsmError>)
    ensures r.Ok? ==> ValidSource(r.value)
  {
    if lines == [] then Ok(Source([], false))
    else
      var s := FeedAll(lines[..|lines| - 1]);
      if s.Err? then s else Feed(s.value, lines[|lines| - 1])
  }

  function ParseLines(lines: seq<Line>): (r: Result<Program, AsmError>)
    ensures r.Ok? ==> ValidProgram(r.value)
  {
    var s := FeedAll(lines);
    if s.Err? then Err(s.error) else if s.value.open then Err(Unterminated) else Ok(s.value.funcs)
  }

  // The first offending line decides the error.
  lemma {:induction false} FeedFails(lines: seq<Line>, n: nat)
    requires n <= |lines| && FeedAll(lines[..n]).Err?
    ensures FeedAll(lines) == FeedAll(lines[..n])
    decreases |lines|
  {
    if n < |lines| {
      var front := lines[..|lines| - 1];
      assert front[..n] == lines[..n];
      FeedFails(front, n);
    } else {
      assert lines[..n] == lines;
    }
  }

  predicate HasUpper(s: string) {
    exists k :: 0 <= k < |s| && 'A' <= s[k] <= 'Z'
  }

  lemma {:induction false} LabelsAreLower(lines: seq<Line>, f: nat)
    requires FeedAll(lines).Ok? && f < |FeedAll(lines).value.funcs|
    ensures forall l :: l in FeedAll(lines).value.funcs[f].labels ==> !HasUpper(l)
  {
    if lines != [] {
      var before := FeedAll(lines[..|lines| - 1]).value;
      if f < |before.funcs| {
        LabelsAreLower(lines[..|lines| - 1], f);
      }
    }
  }

  // Whatever a text loads, it is never pointer-tagged.
  lemma {:induction false} TextLoadsPlain(lines: seq<Line>, f: nat, k: nat)
    requires FeedAll(lines).Ok? && f < |FeedAll(lines).value.funcs|
    requires var body := FeedAll(lines).value.funcs[f].body; k < |body| && body[k].Load?
    ensures !IsPointer(FeedAll(lines).value.funcs[f].body[k].imm)
  {
    hide IsPointer, EncodeLiteral;
    var n := |lines| - 1;
    var before := FeedAll(lines[..n]).value;
    if f < |before.funcs| && k < |before.funcs[f].body| {
      TextLoadsPlain(lines[..n], f, k);
    } else if lines[n].LoadLine? {
      LiteralsArePlain(lines[n].literal);
    }
  }

  // ---------- resolving labels to instruction indices ----------

  datatype Entry = Entry(start: nat, frameSize: int)

  datatype Code = Code(instrs: seq<Instr<nat>>, entries: seq<Entry>)

  function Retarget<L, M>(i: Instr<L>, t: M): Instr<M> {
    match i
    case Op(m, ra, rb, rc) => Op(m, ra, rb, rc)
    case Load(rd, imm) => Load(rd, imm)
    case Call(idx) => Call(idx)
    case Branch(c, _) => Branch(c, t)
  }

  predicate LabelsDefined(f: Func) {
    forall k :: 0 <= k < |f.body| && f.body[k].Branch? ==> f.body[k].target in f.labels
  }

  predicate AllDefined(p: Program) {
    forall f :: 0 <= f < |p| ==> LabelsDefined(p[f])
  }

  // Index of a branch target relative to the function's first instruction.
  function LabelIndex(f: Func, i: Instr<string>): nat {
    if i.Branch? && i.target in f.labels then f.labels[i.target] else 0
  }

  function ResolveBody(f: Func, start: nat): (r: seq<Instr<nat>>)
    ensures |r| == |f.body|
    ensures forall k {:trigger r[k]} :: 0 <= k < |r| ==> r[k] == Retarget(f.body[k], start + LabelIndex(f, f.body[k]))
  {
    seq(|f.body|, k requires 0 <= k < |f.body| => Retarget(f.body[k], start + LabelIndex(f, f.body[k])))
  }

  // Index of function n's first instruction when all functions stand one after the other.
  function Start(p: Program, n: nat): nat
    requires n <= |p|
  {
    if n == 0 then 0 else Start(p, n - 1) + |p[n - 1].body|
  }

  // The first n functions one after the other: running off the end of one enters the next.
  function FlatUpTo(p: Program, n: nat): (r: seq<Instr<nat>>)
    requires n <= |p|
    ensures |r| == Start(p, n)
  {
    if n == 0 then [] else FlatUpTo(p, n - 1) + ResolveBody(p[n - 1], Start(p, n - 1))
  }

  function Flat(p: Program): (r: seq<Instr<nat>>)
    ensures |r| == Start(p, |p|)
  {
    FlatUpTo(p, |p|)
  }

  function Resolve(p: Program): Code {
    Code(Flat(p), seq(|p|, n requires 0 <= n < |p| => Entry(Start(p, n), p[n].frameSize)))
  }

  predicate ValidCode(c: Code) {
    (forall k :: 0 <= k < |c.instrs| && c.instrs[k].Branch? ==> c.instrs[k].target <= |c.instrs|) &&
    (forall j :: 0 <= j < |c.entries| ==> c.entries[j].start <= |c.instrs|)
  }

  lemma {:induction false} StartMonotone(p: Program, n: nat, m: nat)
    requires n <= m <= |p|
    ensures Start(p, n) <= Start(p, m)
  {
    if n < m {
      StartMonotone(p, n, m - 1);
    }
  }

  lemma {:induction false} FlatUpToAt(p: Program, n: nat, m: nat, k: nat)
    requires n < m <= |p| && k < |p[n].body|
    ensures Start(p, n) + k < Start(p, m)
    ensures FlatUpTo(p, m)[Start(p, n) + k] == Retarget(p[n].body[k], Start(p, n) + LabelIndex(p[n], p[n].body[k]))
  {
    if n < m - 1 {
      FlatUpToAt(p, n, m - 1, k);
    }
  }

  // Instruction k of function n, with its label resolved inside that function.
  lemma {:induction false} FlatAt(p: Program, n: nat, k: nat)
    requires n < |p| && k < |p[n].body|
    ensures Start(p, n) + k < |Flat(p)|
    ensures Flat(p)[Start(p, n) + k] == Retarget(p[n].body[k], Start(p, n) + LabelIndex(p[n], p[n].body[k]))
  {
    FlatUpToAt(p, n, |p|, k);
  }

  lemma {:induction false} FlatTargets(p: Program, n: nat)
    requires ValidProgram(p) && n <= |p|
    ensures forall k :: 0 <= k < Start(p, n) && FlatUpTo(p, n)[k].Branch? ==> FlatUpTo(p, n)[k].target <= Start(p, n)
  {
    if n > 0 {
      FlatTargets(p, n - 1);
      assert ValidFunc(p[n - 1]);
    }
  }

  lemma {:induction false} ResolveValid(p: Program)
    requires ValidProgram(p)
    ensures ValidCode(Resolve(p))
  {
    FlatTargets(p, |p|);
    forall n | 0 <= n < |p| ensures Resolve(p).entries[n].start <= |Flat(p)| {
      StartMonotone(p, n, |p|);
    }
  }

  // ---------- the image ----------

  const HEADER_SIZE: nat := 32

  function CodeOffset(functions: nat): nat {
    32 + 8 * functions
  }

  // Bytes taken by the first k instructions.
  function Off<L>(body: seq<Instr<L>>, k: nat): (n: nat)
    requires k <= |body|
  {
    if k == 0 then 0 else Off(body, k - 1) + Size(body[k - 1])
  }

  function Addr(c: Code, k: nat): nat
    requires k <= |c.instrs|
  {
    CodeOffset(|c.entries|) + Off(c.instrs, k)
  }

  function TargetAddr(c: Code, i: Instr<nat>): nat
    requires i.Branch? ==> i.target <= |c.instrs|
  {
    if i.Branch? then Addr(c, i.target) else 0
  }

  // The encoding of each instruction, instruction k carrying ts[k] as its branch address.
  function Encodings<L>(body: seq<Instr<L>>, ts: seq<int>): (r: seq<seq<Byte>>)
    requires |ts| == |body|
    ensures |r| == |body|
    ensures forall k {:trigger r[k]} :: 0 <= k < |r| ==> r[k] == Encode(body[k], ts[k])
  {
    seq(|body|, k requires 0 <= k < |body| => Encode(body[k], ts[k]))
  }

  // Offsets in the joined bytes are sums of instruction sizes.
  lemma {:induction false} LenIsOff<L>(body: seq<Instr<L>>, ts: seq<int>, k: nat)
    requires |ts| == |body| && k <= |body|
    ensures Len(Encodings(body, ts), k) == Off(body, k)
  {
    if k > 0 {
      LenIsOff(body, ts, k - 1);
    }
  }

  function Targets(c: Code): (r: seq<int>)
    requires ValidCode(c)
    ensures |r| == |c.instrs|
    ensures forall k {:trigger r[k]} :: 0 <= k < |r| ==> r[k] == TargetAddr(c, c.instrs[k])
  {
    seq(|c.instrs|, k requires 0 <= k < |c.instrs| => TargetAddr(c, c.instrs[k]))
  }

  function CodeBytes(c: Code): seq<Byte>
    requires ValidCode(c)
  {
    JoinAll(Encodings(c.instrs, Targets(c)))
  }

  // struct.pack of a list of 32-bit words.
  function PackWords(ns: seq<int>): (r: seq<Byte>)
    ensures |r| == 4 * |ns|
  {
    if ns == [] then [] else PackWords(ns[..|ns| - 1]) + PackU32(ns[|ns| - 1])
  }

  // magic, version, flags, importCount, functionCount, importOffset, functionOffset, codeOffset
  function HeaderWords(functions: nat): seq<int> {
    [MAGIC, VERSION, 0, 0, functions, HEADER_SIZE, HEADER_SIZE, CodeOffset(functions)]
  }

  // entryIP and frameSize of each function.
  function TableWords(c: Code, n: nat): (r: seq<int>)
    requires ValidCode(c) && n <= |c.entries|
    ensures |r| == 2 * n
    ensures forall j {:trigger c.entries[j]} :: 0 <= j < n ==>
              r[2 * j] == Addr(c, c.entries[j].start) && r[2 * j + 1] == c.entries[j].frameSize
  {
    if n == 0 then [] else TableWords(c, n - 1) + [Addr(c, c.entries[n - 1].start), c.entries[n - 1].frameSize]
  }

  function FrontWords(c: Code): seq<int>
    requires ValidCode(c)
  {
    HeaderWords(|c.entries|) + TableWords(c, |c.entries|)
  }

  function Image(c: Code): seq<Byte>
    requires ValidCode(c)
  {
    PackWords(FrontWords(c)) + CodeBytes(c)
  }

  lemma {:induction false} ImageLength(c: Code)
    requires ValidCode(c)
    ensures |Image(c)| == Addr(c, |c.instrs|)
  {
    LenIsOff(c.instrs, Targets(c), |c.instrs|);
  }

  lemma {:induction false} OffMonotone<L>(body: seq<Instr<L>>, j: nat, k: nat)
    requires j <= k <= |body|
    ensures Off(body, j) + 4 * (k - j) <= Off(body, k)
  {
    if j < k {
      OffMonotone(body, j, k - 1);
    }
  }

  lemma {:induction false} AddrStep(c: Code, k: nat)
    requires k < |c.instrs|
    ensures Addr(c, k + 1) == Addr(c, k) + Size(c.instrs[k])
  {
  }

  // The bytes at the address of instruction k are the encoding of instruction k.
  lemma {:induction false} ImageAt(c: Code, k: nat)
    requires ValidCode(c) && k < |c.instrs|
    ensures var a, s := Addr(c, k), Size(c.instrs[k]);
            a + s <= |Image(c)| && Image(c)[a..a + s] == Encode(c.instrs[k], TargetAddr(c, c.instrs[k]))
  {
    var front, cs := PackWords(FrontWords(c)), Encodings(c.instrs, Targets(c));
    hide PackWords, FrontWords, Encode, Off, Join, Len;
    LenIsOff(c.instrs, Targets(c), k);
    JoinSliceAfter(Image(c), front, cs, k, Addr(c, k), cs[k]);
  }

  lemma {:induction false} PackWordsAt(ns: seq<int>, k: nat)
    requires k < |ns|
    ensures PackWords(ns)[4 * k..4 * k + 4] == PackU32(ns[k])
  {
    var front, last := PackWords(ns[..|ns| - 1]), PackU32(ns[|ns| - 1]);
    if k < |ns| - 1 {
      PackWordsAt(ns[..|ns| - 1], k);
      SliceLeft(front, last, 4 * k, 4 * k + 4);
    } else {
      SliceRight(front, last, 0, 4);
    }
  }

  // The k-th 32-bit word of the header and function table.
  lemma {:induction false} FrontAt(c: Code, k: nat)
    requires ValidCode(c) && k < |FrontWords(c)|
    ensures 4 * k + 4 <= |Image(c)|
    ensures ReadU32(Image(c), 4 * k) == FrontWords(c)[k] % TWO32
  {
    var ns := FrontWords(c);
    PackWordsAt(ns, k);
    SliceLeft(PackWords(ns), CodeBytes(c), 4 * k, 4 * k + 4);
    ReadPacked(PackWords(ns) + CodeBytes(c), 4 * k, ns[k]);
  }
}
