// Loading an image (src/vm/bytecode.cpp:32-70, src/vm/vm.cpp:10-28).
module Loading {
  import opened Words
  import opened Wrappers
  import opened Bytes
  import opened Isa
  import opened Space
  import opened Collector
  import opened HeapOps
  import opened Machine
  import opened VmSpec

  datatype Header = Header(
    magic: nat, version: nat, flags: nat, importCount: nat,
    functionCount: nat, importOffset: nat, functionOffset: nat, codeOffset: nat)

  function ReadHeader(bytes: seq<Byte>): Header
    requires |bytes| >= 32
  {
    Header(ReadU32(bytes, 0), ReadU32(bytes, 4), ReadU32(bytes, 8), ReadU32(bytes, 12),
           ReadU32(bytes, 16), ReadU32(bytes, 20), ReadU32(bytes, 24), ReadU32(bytes, 28))
  }

  function LoadHeader(bytes: seq<Byte>): Outcome<Header> {
    if |bytes| < 32 then Throw(BadHeader)
    else
      var h := ReadHeader(bytes);
      if h.magic != MAGIC || h.version != VERSION then Throw(BadHeader) else Next(h)
  }

  // The bound check covers the first byte only; reading on past the end is undefined.
  function FetchAtAddr(bytes: seq<Byte>, addr: nat): Outcome<nat> {
    if addr >= |bytes| then Throw(BadAddress)
    else if addr + 4 > |bytes| then Undefined
    else Next(ReadU32(bytes, addr))
  }

  function FetchFuncMetadata(bytes: seq<Byte>, addr: nat): Outcome<FuncInfo> {
    var e := FetchAtAddr(bytes, addr);
    if !e.Next? then (if e.Throw? then Throw(e.e) else Undefined)
    else
      var f := FetchAtAddr(bytes, (addr + 4) % TWO32);
      if !f.Next? then (if f.Throw? then Throw(f.e) else Undefined) else Next(FuncInfo(e.s, f.s % 0x1_0000))
  }

  // The table after its first n entries; addresses are 32-bit.
  function LoadTable(bytes: seq<Byte>, offset: nat, n: nat): Outcome<Table> {
    if n == 0 then Next(ZeroTable())
    else
      var t := LoadTable(bytes, offset, n - 1);
      if !t.Next? then t
      else
        var f := FetchFuncMetadata(bytes, (offset + 8 * (n - 1)) % TWO32);
        match f
        case Next(info) => if n - 1 < 2048 then Next(t.s[n - 1 := info]) else Undefined
        case Halt(_) => Undefined
        case Throw(e) => Throw(e)
        case Undefined => Undefined
  }

  function LoadVm(bytes: seq<Byte>): Outcome<(Loaded, Vm)> {
    match LoadHeader(bytes)
    case Next(h) =>
      (match LoadTable(bytes, h.functionOffset, h.functionCount)
       case Next(t) => Next((Loaded(bytes, t), Initial(h.codeOffset)))
       case Halt(_) => Undefined
       case Throw(e) => Throw(e)
       case Undefined => Undefined)
    case Halt(_) => Undefined
    case Throw(e) => Throw(e)
    case Undefined => Undefined
  }

  // ---------- which bytes load, and to what ----------

  predicate StartsWith(bytes: seq<Byte>) {
    |bytes| >= 32 && bytes[0] == 0x53 && bytes[1] == 0x50 && bytes[2] == 0x52 && bytes[3] == 0x54 &&
    bytes[4] == 0 && bytes[5] == 0 && bytes[6] == 0 && bytes[7] == 1
  }

  // Only a file of 32 bytes or more that begins with SPRT and version 1 is taken.
  lemma {:induction false} HeaderRefused(bytes: seq<Byte>)
    ensures if StartsWith(bytes) then LoadHeader(bytes).Next? else LoadHeader(bytes) == Throw(BadHeader)
    ensures !StartsWith(bytes) ==> LoadVm(bytes) == Throw(BadHeader)
  {
    if |bytes| >= 32 {
      WordIs(bytes, 0, 0x53, 0x50, 0x52, 0x54);
      WordIs(bytes, 4, 0, 0, 0, 1);
    }
    hide ReadU32;
  }

  lemma {:induction false} WordIs(bytes: seq<Byte>, at: nat, b0: Byte, b1: Byte, b2: Byte, b3: Byte)
    requires at + 4 <= |bytes|
    ensures ReadU32(bytes, at) == b0 * 0x100_0000 + b1 * 0x1_0000 + b2 * 0x100 + b3 <==>
              bytes[at] == b0 && bytes[at + 1] == b1 && bytes[at + 2] == b2 && bytes[at + 3] == b3
  {
  }

  // Word k of the header, its bytes in order.
  function HeaderField(bytes: seq<Byte>, k: nat): nat
    requires k < 8 && |bytes| >= 32
  {
    var a: int := bytes[4 * k];
    var b: int := bytes[4 * k + 1];
    var c: int := bytes[4 * k + 2];
    a * 16777216 + b * 65536 + c * 256 + bytes[4 * k + 3]
  }

  // The machine stands at the code offset, the last word of the header, with nothing in registers,
  // stack, output and heap, and with the flag that is neither equal nor less.
  lemma {:induction false} LoadedState(bytes: seq<Byte>)
    requires LoadVm(bytes).Next?
    ensures StartsWith(bytes)
    ensures var (ld, v) := LoadVm(bytes).s;
            ld.bytes == bytes && v.ip == HeaderField(bytes, 7) && v.sp == 0 && v.fp == 0 &&
            (forall k: Byte :: v.core.reg[k] == 0) && (forall k :: 0 <= k < 4096 ==> v.stack[k] == 0) &&
            v.core.flag == 2 && v.core.out == [] && v.core.mem == Mem(Space([], map[]), Space([], map[]), map[])
  {
    hide LoadTable;
    HeaderRefused(bytes);
    HeaderIs(bytes);
    hide ReadU32, HeaderField, LoadHeader;
  }

  lemma {:induction false} HeaderIs(bytes: seq<Byte>)
    requires LoadHeader(bytes).Next?
    ensures |bytes| >= 32
    ensures var h := LoadHeader(bytes).s;
            h.functionCount == HeaderField(bytes, 4) && h.functionOffset == HeaderField(bytes, 6) &&
            h.codeOffset == HeaderField(bytes, 7)
  {
  }

  // Only an address past the end throws; a word that begins inside and does not end there is undefined.
  lemma {:induction false} AddressRefused(bytes: seq<Byte>, addr: nat)
    ensures FetchAtAddr(bytes, addr) == Throw(BadAddress) <==> |bytes| <= addr
    ensures FetchAtAddr(bytes, addr) == Undefined <==> addr < |bytes| < addr + 4
  {
    hide ReadU32;
  }

  // Entry j of the table is the two words at 8 * j behind the function offset, of the second the low
  // half; entries behind the last are zero.
  lemma {:induction false} LoadedTable(bytes: seq<Byte>, j: nat)
    requires LoadVm(bytes).Next? && j < 2048
    ensures |bytes| >= 32
    ensures var n, offset, f := HeaderField(bytes, 4), HeaderField(bytes, 6), LoadVm(bytes).s.0.table[j];
            n <= 2048 && (j >= n ==> f == FuncInfo(0, 0)) &&
            (j < n ==>
               var at := (offset + 8 * j) % 0x1_0000_0000;
               var next := (at + 4) % 0x1_0000_0000;
               at + 4 <= |bytes| && next + 4 <= |bytes| && f.entryIP == ReadU32(bytes, at) &&
               f.frameSize == ReadU32(bytes, next) % 65536)
  {
    HeaderIs(bytes);
    hide ReadU32, HeaderField, LoadHeader, LoadTable, FetchFuncMetadata;
    var n, offset := HeaderField(bytes, 4), HeaderField(bytes, 6);
    TableEntry(bytes, offset, n, j);
    if j < n {
      EntryIs(bytes, (offset + 8 * j) % TWO32);
    }
  }

  lemma {:induction false} EntryIs(bytes: seq<Byte>, at: nat)
    requires FetchFuncMetadata(bytes, at).Next?
    ensures at + 4 <= |bytes| && (at + 4) % TWO32 + 4 <= |bytes|
    ensures FetchFuncMetadata(bytes, at).s == FuncInfo(ReadU32(bytes, at), ReadU32(bytes, (at + 4) % TWO32) % 65536)
  {
    hide ReadU32;
  }

  lemma {:induction false} TableEntry(bytes: seq<Byte>, offset: nat, n: nat, j: nat)
    requires LoadTable(bytes, offset, n).Next? && j < 2048
    ensures var f := LoadTable(bytes, offset, n).s[j];
            n <= 2048 && (j >= n ==> f == FuncInfo(0, 0)) &&
            (j < n ==> FetchFuncMetadata(bytes, (offset + 8 * j) % TWO32) == Next(f))
  {
    hide FetchFuncMetadata;
    if n > 0 {
      TableEntry(bytes, offset, n - 1, j);
    }
  }
}

// What loading an emitted image gives back, and the end-to-end statement from assembly text to
// the running machine.
module Loader {
  import opened Words
  import opened Wrappers
  import opened Bytes
  import opened Isa
  import opened Assembly
  import opened Assembler
  import opened Machine
  import opened VmSpec
  import opened Reference
  import opened Simulation
  import opened Loading

  // ---------- loading an emitted image ----------

  ghost predicate Loadable(c: Code) {
    ValidCode(c) && Addr(c, |c.instrs|) < TWO32 && |c.entries| <= FUNCTION_TABLE_SIZE
  }

  lemma {:induction false} FrontInside(c: Code)
    requires ValidCode(c)
    ensures |FrontWords(c)| == 8 + 2 * |c.entries| && 4 * |FrontWords(c)| <= |Image(c)|
  {
    PackWordsLength(FrontWords(c));
  }

  lemma {:induction false} PackWordsLength(ns: seq<int>)
    ensures |PackWords(ns)| == 4 * |ns|
  {
  }

  lemma {:induction false} HeaderWord(c: Code, k: nat)
    requires Loadable(c) && k < 8
    ensures 4 * k + 4 <= |Image(c)| && ReadU32(Image(c), 4 * k) == HeaderWords(|c.entries|)[k]
  {
    hide Image, ReadU32, TableWords;
    FrontInside(c);
    AddrBound(c, 0);
    FrontAt(c, k);
  }

  // The header fields read back.
  lemma {:induction false} HeaderRoundTrip(c: Code)
    requires Loadable(c)
    ensures LoadHeader(Image(c)) ==
            Next(Header(MAGIC, VERSION, 0, 0, |c.entries|, HEADER_SIZE, HEADER_SIZE, CodeOffset(|c.entries|)))
  {
    hide Image, ReadU32, Loadable, CodeOffset;
    HeaderWord(c, 0);
    HeaderWord(c, 1);
    HeaderWord(c, 2);
    HeaderWord(c, 3);
    HeaderWord(c, 4);
    HeaderWord(c, 5);
    HeaderWord(c, 6);
    HeaderWord(c, 7);
  }

  lemma {:induction false} FrontEntry(c: Code, j: nat)
    requires ValidCode(c) && j < |c.entries|
    ensures 9 + 2 * j < |FrontWords(c)|
    ensures FrontWords(c)[8 + 2 * j] == Addr(c, c.entries[j].start) &&
            FrontWords(c)[9 + 2 * j] == c.entries[j].frameSize
  {
    hide Addr, HeaderWords;
    var h, w, e := HeaderWords(|c.entries|), TableWords(c, |c.entries|), c.entries[j];
    assert |h| == 8 by { HeaderHasEight(|c.entries|); }
    assert w[2 * j] == Addr(c, e.start) && w[2 * j + 1] == e.frameSize;
  }

  lemma {:induction false} HeaderHasEight(n: nat)
    ensures |HeaderWords(n)| == 8
  {
  }

  lemma {:induction false} EntryWords(c: Code, j: nat)
    requires Loadable(c) && j < |c.entries|
    ensures 40 + 8 * j <= |Image(c)|
    ensures ReadU32(Image(c), 32 + 8 * j) == Addr(c, c.entries[j].start)
    ensures ReadU32(Image(c), 36 + 8 * j) == c.entries[j].frameSize % TWO32
  {
    hide Image, ReadU32, FrontWords;
    AddrBound(c, c.entries[j].start);
    hide Addr;
    FrontEntry(c, j);
    FrontAt(c, 8 + 2 * j);
    FrontAt(c, 9 + 2 * j);
  }

  // Entry j reads back as its address and the low 16 bits of its frame size.
  lemma {:induction false} EntryRoundTrip(c: Code, j: nat)
    requires Loadable(c) && j < |c.entries|
    ensures FetchFuncMetadata(Image(c), HEADER_SIZE + 8 * j) ==
            Next(FuncInfo(Addr(c, c.entries[j].start), c.entries[j].frameSize % 0x1_0000))
  {
    hide Image, ReadU32, Addr, Off;
    EntryWords(c, j);
    LowBits(c.entries[j].frameSize);
  }

  lemma {:induction false} LowBits(n: int)
    ensures (n % TWO32) % 0x1_0000 == n % 0x1_0000
  {
    assert n % TWO32 == n - n / TWO32 * TWO32;
  }

  lemma {:induction false} TableRoundTrip(c: Code, n: nat)
    requires Loadable(c) && n <= |c.entries|
    ensures var t := LoadTable(Image(c), HEADER_SIZE, n);
            t.Next? && forall j :: 0 <= j < n ==>
              t.s[j] == FuncInfo(Addr(c, c.entries[j].start), c.entries[j].frameSize % 0x1_0000)
  {
    hide Image, Addr, FetchFuncMetadata;
    if n > 0 {
      TableRoundTrip(c, n - 1);
      EntryRoundTrip(c, n - 1);
      assert (HEADER_SIZE + 8 * (n - 1)) % TWO32 == HEADER_SIZE + 8 * (n - 1);
    }
  }

  // Loading the image of c gives c's table and a machine standing at its first instruction,
  // in the state the reference machine starts from.
  lemma {:induction false} LoadImage(c: Code)
    requires Loadable(c)
    ensures var r := LoadVm(Image(c)); r.Next? && LoadedFrom(c, r.s.0) && Rel(c, StartRef(), r.s.1)
  {
    HeaderRoundTrip(c);
    TableRoundTrip(c, |c.entries|);
    hide Image, LoadTable, LoadHeader;
    forall i {:trigger StartRef().stack[i]} | 0 <= i < 4096 ensures CellRel(StartRef().stack[i], Initial(0).stack[i]) {
    }
  }

  // Assembling a text, loading the image and running it, with collections at any allocations,
  // agrees step for step with the reference machine on the text's resolved instructions.
  lemma {:induction false} AssembledTextRuns(env: Env, lines: seq<Line>, gcs: seq<bool>)
    requires ParseLines(lines).Ok? && Emittable(ParseLines(lines).value)
    requires Loadable(Resolve(ParseLines(lines).value))
    ensures var c := Resolve(ParseLines(lines).value);
            var r := LoadVm(Image(c));
            r.Next? && Agree(c, RefRun(env, c, StartRef(), gcs), VmRun(env, r.s.0, r.s.1, gcs))
  {
    var c := Resolve(ParseLines(lines).value);
    LoadImage(c);
    hide LoadVm, Image, Rel, LoadedFrom;
    SimRun(env, c, LoadVm(Image(c)).s.0, StartRef(), LoadVm(Image(c)).s.1, gcs);
  }

  // ---------- disassembly ----------

  function MnemonicOf(op: Byte): Option<Mnemonic> {
    if op == OP_ADD then Some(Mnemonic.Add) else if op == OP_SUB then Some(Mnemonic.Sub)
    else if op == OP_MUL then Some(Mnemonic.Mul) else if op == OP_DIV then Some(Mnemonic.Div)
    else if op == OP_END then Some(End) else if op == OP_CMP then Some(Cmp)
    else if op == OP_DEBUG_RETURN then Some(DbgRet) else if op == OP_RET then Some(Ret)
    else if op == OP_PUSH then Some(Push) else if op == OP_POP then Some(Pop)
    else if op == OP_INSERT_INTO_STACK then Some(Ins) else if op == OP_READ_FROM_STACK then Some(Read)
    else if op == OP_MOV then Some(Mov) else if op == OP_ARR_INIT then Some(Arr)
    else if op == OP_ARR_INSERT then Some(ArrIns) else if op == OP_ARR_READ then Some(ArrRead)
    else None
  }

  function CondOf(op: Byte): Option<Cond> {
    if op == OP_JE then Some(Eq) else if op == OP_JNE then Some(Ne)
    else if op == OP_JL then Some(Lt) else if op == OP_JG then Some(Gt) else None
  }

  // One instruction read at an address, a branch naming the address it carries.
  function ReadInstr(bytes: seq<Byte>, at: nat): Option<Instr<nat>> {
    var w := Fetch(bytes, at);
    if w.None? then None
    else
      var d := Decode(w.value);
      if MnemonicOf(d.opcode).Some? then Some(Op(MnemonicOf(d.opcode).value, d.ra, d.rb, d.rc))
      else if d.opcode == OP_CALL then Some(Call(d.ra * 0x1_0000 + d.rb * 0x100 + d.rc))
      else if d.opcode == OP_LOAD64 then
        var (hi, lo) := (Fetch(bytes, at + 4), Fetch(bytes, at + 8));
        if hi.Some? && lo.Some? then Some(Load(d.ra, hi.value * TWO32 + lo.value)) else None
      else if CondOf(d.opcode).Some? then
        var t := Fetch(bytes, at + 4);
        if t.Some? then Some(Branch(CondOf(d.opcode).value, t.value)) else None
      else None
  }

  // Linear sweep from an address to the end of the image.
  function Sweep(bytes: seq<Byte>, at: nat): Option<seq<Instr<nat>>>
    decreases |bytes| - at
  {
    if at >= |bytes| then Some([])
    else
      var i := ReadInstr(bytes, at);
      if i.None? then None
      else
        var rest := Sweep(bytes, at + Size(i.value));
        if rest.None? then None else Some([i.value] + rest.value)
  }

  // Instruction i with its branch, if any, naming an address.
  function Located(c: Code, i: Instr<nat>): Instr<nat>
    requires i.Branch? ==> i.target <= |c.instrs|
  {
    if i.Branch? then Branch(i.cond, Addr(c, i.target)) else i
  }

  lemma {:induction false} ReadOp(bytes: seq<Byte>, at: nat, m: Mnemonic, ra: Byte, rb: Byte, rc: Byte)
    requires Fetch(bytes, at).Some? && Decode(Fetch(bytes, at).value) == Decoded(Opcode(m), ra, rb, rc)
    ensures ReadInstr(bytes, at) == Some(Op(m, ra, rb, rc))
  {
    hide Fetch, Decode;
  }

  lemma {:induction false} ReadCall(bytes: seq<Byte>, at: nat, idx: Index24)
    requires Fetch(bytes, at).Some? && Decode(Fetch(bytes, at).value) == Fields<nat>(Call(idx))
    ensures ReadInstr(bytes, at) == Some(Call(idx))
  {
    hide Fetch, Decode;
    CallIndex(idx);
  }

  lemma {:induction false} ReadLoad(bytes: seq<Byte>, at: nat, rd: Byte, imm: Word)
    requires Fetch(bytes, at).Some? && Decode(Fetch(bytes, at).value) == Decoded(OP_LOAD64, rd, 0, 0)
    requires Fetch(bytes, at + 4).Some? && Fetch(bytes, at + 8).Some?
    requires Fetch(bytes, at + 4).value * TWO32 + Fetch(bytes, at + 8).value == imm
    ensures ReadInstr(bytes, at) == Some(Load(rd, imm))
  {
    hide Fetch, Decode;
  }

  lemma {:induction false} ReadBranch(bytes: seq<Byte>, at: nat, cond: Cond, t: nat)
    requires Fetch(bytes, at).Some? && Decode(Fetch(bytes, at).value) == Decoded(CondCode(cond), 0, 0, 0)
    requires Fetch(bytes, at + 4) == Some(t)
    ensures ReadInstr(bytes, at) == Some(Branch(cond, t))
  {
    hide Fetch, Decode;
  }

  lemma {:induction false} ReadInstrBack(c: Code, ld: Loaded, k: nat)
    requires ValidCode(c) && LoadedFrom(c, ld) && k < |c.instrs|
    ensures ReadInstr(ld.bytes, Addr(c, k)) == Some(Located(c, c.instrs[k]))
  {
    hide Addr, Fetch, Decode, Opcode, CondCode, ReadInstr, LoadedFrom, Image;
    FetchInstr(c, ld, k);
    match c.instrs[k]
    case Op(m, ra, rb, rc) => ReadOp(ld.bytes, Addr(c, k), m, ra, rb, rc);
    case Load(rd, imm) => ReadLoad(ld.bytes, Addr(c, k), rd, imm);
    case Call(idx) => ReadCall(ld.bytes, Addr(c, k), idx);
    case Branch(cond, t) => ReadBranch(ld.bytes, Addr(c, k), cond, Addr(c, t));
  }

  // Instructions from k on, as the sweep should find them.
  function LocatedFrom(c: Code, k: nat): seq<Instr<nat>>
    requires ValidCode(c) && k <= |c.instrs|
    decreases |c.instrs| - k
  {
    if k == |c.instrs| then [] else [Located(c, c.instrs[k])] + LocatedFrom(c, k + 1)
  }

  lemma {:induction false} LocatedAt(c: Code, k: nat, j: nat)
    requires ValidCode(c) && k + j < |c.instrs|
    ensures |LocatedFrom(c, k)| == |c.instrs| - k && LocatedFrom(c, k)[j] == Located(c, c.instrs[k + j])
    decreases |c.instrs| - k
  {
    if k + 1 < |c.instrs| {
      LocatedAt(c, k + 1, if j > 0 then j - 1 else 0);
    }
  }

  lemma {:induction false} SweepStep(bytes: seq<Byte>, at: nat, i: Instr<nat>, rest: seq<Instr<nat>>)
    requires at < |bytes| && ReadInstr(bytes, at) == Some(i) && Sweep(bytes, at + Size(i)) == Some(rest)
    ensures Sweep(bytes, at) == Some([i] + rest)
  {
    hide ReadInstr;
  }

  lemma {:induction false} SweepFacts(c: Code, ld: Loaded, k: nat)
    requires LoadedFrom(c, ld) && k <= |c.instrs|
    ensures Addr(c, |c.instrs|) == |ld.bytes|
    ensures k < |c.instrs| && c.instrs[k].Branch? ==> c.instrs[k].target <= |c.instrs|
    ensures k < |c.instrs| ==>
              var i := Located(c, c.instrs[k]);
              Addr(c, k) < |ld.bytes| && Addr(c, k + 1) == Addr(c, k) + Size(i) &&
              ReadInstr(ld.bytes, Addr(c, k)) == Some(i)
  {
    ImageLength(c);
    hide Image, ReadInstr;
    if k < |c.instrs| {
      OffMonotone(c.instrs, k + 1, |c.instrs|);
      AddrStep(c, k);
      ReadInstrBack(c, ld, k);
    }
  }

  // Sweeping the code section recovers the emitted instructions of all functions, in order,
  // each branch carrying the address of its target, forward or backward.
  lemma {:induction false} DisassemblyRoundTrip(c: Code, ld: Loaded, k: nat)
    requires ValidCode(c) && LoadedFrom(c, ld) && k <= |c.instrs|
    ensures Sweep(ld.bytes, Addr(c, k)) == Some(LocatedFrom(c, k))
    decreases |c.instrs| - k
  {
    hide Addr, ReadInstr, Located, Size, LoadedFrom, ValidCode;
    SweepFacts(c, ld, k);
    if k < |c.instrs| {
      DisassemblyRoundTrip(c, ld, k + 1);
      SweepStep(ld.bytes, Addr(c, k), Located(c, c.instrs[k]), LocatedFrom(c, k + 1));
    }
  }
}
