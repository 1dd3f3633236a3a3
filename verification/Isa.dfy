// Big-endian bytes: struct.pack('>I') / struct.pack('>Q') of the assembler, `fetch` of the VM.
module Bytes {
  import opened Words

  type Byte = b: int | 0 <= b < 256

  // Masked to 32 bits, as pack_u32 does.
  function PackU32(n: int): (r: seq<Byte>)
    ensures |r| == 4
  {
    [(n / 0x100_0000) % 256, (n / 0x1_0000) % 256, (n / 0x100) % 256, n % 256]
  }

  function PackU64(n: int): (r: seq<Byte>)
    ensures |r| == 8
  {
    PackU32(n / TWO32) + PackU32(n)
  }

  function ReadU32(bytes: seq<Byte>, at: nat): (r: nat)
    requires at + 4 <= |bytes|
    ensures r < TWO32
  {
    var a: int := bytes[at];
    var b: int := bytes[at + 1];
    var c: int := bytes[at + 2];
    a * 0x100_0000 + b * 0x1_0000 + c * 0x100 + bytes[at + 3]
  }

  lemma {:induction false} FourBytes(n: int)
    ensures (n / 0x100_0000) % 256 * 0x100_0000 + (n / 0x1_0000) % 256 * 0x1_0000
            + (n / 0x100) % 256 * 0x100 + n % 256 == n % TWO32
  {
    var a := n / 0x100;
    var b := a / 0x100;
    var c := b / 0x100;
    var d := c / 0x100;
    assert b == n / 0x1_0000;
    assert c == n / 0x100_0000;
    assert n == d * TWO32 + (c % 256 * 0x100_0000 + b % 256 * 0x1_0000 + a % 256 * 0x100 + n % 256);
  }

  // Reading what was packed gives the number modulo 2^32, wherever the four bytes lie.
  lemma {:induction false} ReadPacked(bytes: seq<Byte>, at: nat, n: int)
    requires at + 4 <= |bytes| && bytes[at..at + 4] == PackU32(n)
    ensures ReadU32(bytes, at) == n % TWO32
  {
    var p := PackU32(n);
    forall k | 0 <= k < 4 ensures bytes[at + k] == p[k] {
      assert bytes[at + k] == bytes[at..at + 4][k];
    }
    FourBytes(n);
  }

  lemma {:induction false} ReadPacked64(bytes: seq<Byte>, at: nat, w: Word)
    requires at + 8 <= |bytes| && bytes[at..at + 8] == PackU64(w)
    ensures ReadU32(bytes, at) * TWO32 + ReadU32(bytes, at + 4) == w
  {
    assert bytes[at..at + 4] == bytes[at..at + 8][..4] == PackU32(w / TWO32);
    assert bytes[at + 4..at + 8] == bytes[at..at + 8][4..] == PackU32(w);
    ReadPacked(bytes, at, w / TWO32);
    ReadPacked(bytes, at + 4, w);
  }
}

// Joining chunks of bytes end to end.
module Chunks {
  function Len<T>(cs: seq<seq<T>>, k: nat): nat
    requires k <= |cs|
  {
    if k == 0 then 0 else Len(cs, k - 1) + |cs[k - 1]|
  }

  function Join<T>(cs: seq<seq<T>>, k: nat): (r: seq<T>)
    requires k <= |cs|
    ensures |r| == Len(cs, k)
  {
    if k == 0 then [] else Join(cs, k - 1) + cs[k - 1]
  }

  function JoinAll<T>(cs: seq<seq<T>>): seq<T> {
    Join(cs, |cs|)
  }

  lemma {:induction false} JoinSlice<T>(cs: seq<seq<T>>, k: nat, n: nat)
    requires k < n <= |cs|
    ensures Len(cs, k) + |cs[k]| <= Len(cs, n)
    ensures Join(cs, n)[Len(cs, k)..Len(cs, k) + |cs[k]|] == cs[k]
  {
    if k < n - 1 {
      JoinSlice(cs, k, n - 1);
      SliceLeft(Join(cs, n - 1), cs[n - 1], Len(cs, k), Len(cs, k) + |cs[k]|);
    }
  }

  lemma {:induction false} JoinPrefix<T>(a: seq<seq<T>>, b: seq<seq<T>>, k: nat)
    requires a <= b && k <= |a|
    ensures Len(b, k) == Len(a, k) && Join(b, k) == Join(a, k)
  {
    if k > 0 {
      JoinPrefix(a, b, k - 1);
    }
  }

  lemma {:induction false} JoinSliceAfter<T>(all: seq<T>, front: seq<T>, cs: seq<seq<T>>, k: nat, at: nat, c: seq<T>)
    requires all == front + JoinAll(cs)
    requires k < |cs| && at == |front| + Len(cs, k) && c == cs[k]
    ensures at + |c| <= |all| && all[at..at + |c|] == c
  {
    JoinSlice(cs, k, |cs|);
    SliceRight(front, JoinAll(cs), Len(cs, k), Len(cs, k) + |cs[k]|);
  }

  // Replacing chunk k by one of the same length overwrites its place in the whole.
  lemma {:induction false} JoinUpdate<T>(cs: seq<seq<T>>, k: nat, c: seq<T>, n: nat)
    requires k < |cs| && |c| == |cs[k]| && n <= |cs|
    ensures Len(cs[k := c], n) == Len(cs, n)
    ensures n <= k ==> Join(cs[k := c], n) == Join(cs, n)
    ensures k < n ==> Len(cs, k) + |c| <= Len(cs, n)
    ensures k < n ==> var e, o := Join(cs, n), Len(cs, k); Join(cs[k := c], n) == e[..o] + c + e[o + |c|..]
  {
    hide Join, Len;
    JoinStep(cs, n);
    JoinStep(cs[k := c], n);
    if n > 0 {
      JoinUpdate(cs, k, c, n - 1);
      if k < n - 1 {
        PutInside(Join(cs, n - 1), cs[n - 1], Len(cs, k), c);
      } else if k == n - 1 {
        PutLast(Join(cs, k), cs[k], c);
      }
    }
  }

  lemma {:induction false} JoinStep<T>(cs: seq<seq<T>>, n: nat)
    requires n <= |cs|
    ensures Len(cs, n) == if n == 0 then 0 else Len(cs, n - 1) + |cs[n - 1]|
    ensures Join(cs, n) == if n == 0 then [] else Join(cs, n - 1) + cs[n - 1]
  {
  }

  lemma {:induction false} PutInside<T>(e: seq<T>, v: seq<T>, o: nat, c: seq<T>)
    requires o + |c| <= |e|
    ensures e[..o] + c + e[o + |c|..] + v == (e + v)[..o] + c + (e + v)[o + |c|..]
  {
    assert (e + v)[..o] == e[..o] && (e + v)[o + |c|..] == e[o + |c|..] + v;
  }

  lemma {:induction false} PutLast<T>(e: seq<T>, x: seq<T>, c: seq<T>)
    requires |c| == |x|
    ensures e + c == (e + x)[..|e|] + c + (e + x)[|e| + |c|..]
  {
    assert (e + x)[..|e|] == e && (e + x)[|e| + |c|..] == [];
  }

  lemma {:induction false} JoinRun<T>(cs: seq<seq<T>>, a: nat, ds: seq<seq<T>>, j: nat)
    requires j <= |ds| && a + |ds| <= |cs| && cs[a..a + |ds|] == ds
    ensures Join(cs, a + j) == Join(cs, a) + Join(ds, j)
  {
    if j > 0 {
      assert cs[a + j - 1] == cs[a..a + |ds|][j - 1];
      JoinRun(cs, a, ds, j - 1);
      assert Join(cs, a) + (Join(ds, j - 1) + ds[j - 1]) == Join(cs, a) + Join(ds, j - 1) + ds[j - 1];
    }
  }

  // Group i is cs[at[i]..at[i + 1]], joined.
  ghost predicate GroupAt<T(!new)>(cs: seq<seq<T>>, at: seq<nat>, groups: seq<seq<T>>, i: nat) {
    i < |groups| && i + 1 < |at| && at[i] <= at[i + 1] <= |cs| && groups[i] == JoinAll(cs[at[i]..at[i + 1]])
  }

  lemma {:induction false} JoinGroups<T(!new)>(cs: seq<seq<T>>, at: seq<nat>, groups: seq<seq<T>>, n: nat)
    requires n < |at| && n <= |groups| && at[0] == 0
    requires forall i: nat :: i < n ==> GroupAt(cs, at, groups, i)
    ensures at[n] <= |cs| && Join(cs, at[n]) == Join(groups, n)
  {
    if n > 0 {
      var a, b := at[n - 1], at[n];
      assert GroupAt(cs, at, groups, n - 1);
      JoinGroups(cs, at, groups, n - 1);
      JoinRun(cs, a, cs[a..b], b - a);
    }
  }

  lemma {:induction false} SliceIs<T>(cs: seq<T>, a: nat, b: nat, ds: seq<T>)
    requires b == a + |ds| <= |cs|
    requires forall k: nat {:trigger ds[k]} :: k < |ds| ==> cs[a + k] == ds[k]
    ensures cs[a..b] == ds
  {
  }

  lemma {:induction false} SliceRight<T>(a: seq<T>, b: seq<T>, i: nat, j: nat)
    requires i <= j <= |b|
    ensures (a + b)[|a| + i..|a| + j] == b[i..j]
  {
  }

  lemma {:induction false} SliceLeft<T>(a: seq<T>, b: seq<T>, i: nat, j: nat)
    requires i <= j <= |a|
    ensures (a + b)[i..j] == a[i..j]
  {
  }
}

// Instructions, their numbers (src/shared/opcodes.h) and their encoding.
module Isa {
  import opened Words
  import opened Bytes

  // The file format, "SPRT" version 1.
  const MAGIC: nat := 0x53505254
  const VERSION: nat := 1

  const OP_ADD: Byte := 0
  const OP_SUB: Byte := 1
  const OP_MUL: Byte := 2
  const OP_DIV: Byte := 3
  const OP_END: Byte := 4
  const OP_LOAD64: Byte := 5
  const OP_CMP: Byte := 6
  const OP_DEBUG_RETURN: Byte := 7
  const OP_JE: Byte := 8
  const OP_JNE: Byte := 9
  const OP_JL: Byte := 10
  const OP_JG: Byte := 11
  const OP_CALL: Byte := 12
  const OP_RET: Byte := 13
  const OP_PUSH: Byte := 14
  const OP_POP: Byte := 15
  const OP_INSERT_INTO_STACK: Byte := 16
  const OP_READ_FROM_STACK: Byte := 17
  const OP_MOV: Byte := 18
  const OP_ARR_INIT: Byte := 19
  const OP_ARR_INSERT: Byte := 20
  const OP_ARR_READ: Byte := 21

  type Reg = Byte
  type Index24 = n: int | 0 <= n < 0x100_0000

  datatype Cond = Eq | Ne | Lt | Gt

  // Instructions whose whole content is the word opcode, ra, rb, rc.
  datatype Mnemonic =
    | Add | Sub | Mul | Div | End | Cmp | DbgRet | Ret | Push | Pop | Ins | Read | Mov | Arr | ArrIns | ArrRead

  // L is what a branch names: a label (string) in the assembly text, an instruction index
  // once labels are resolved.
  datatype Instr<L> =
    | Op(m: Mnemonic, ra: Byte, rb: Byte, rc: Byte)
    | Load(rd: Reg, imm: Word)
    | Call(idx: Index24)
    | Branch(cond: Cond, target: L)

  function Opcode(m: Mnemonic): Byte {
    match m
    case Add => OP_ADD
    case Sub => OP_SUB
    case Mul => OP_MUL
    case Div => OP_DIV
    case End => OP_END
    case Cmp => OP_CMP
    case DbgRet => OP_DEBUG_RETURN
    case Ret => OP_RET
    case Push => OP_PUSH
    case Pop => OP_POP
    case Ins => OP_INSERT_INTO_STACK
    case Read => OP_READ_FROM_STACK
    case Mov => OP_MOV
    case Arr => OP_ARR_INIT
    case ArrIns => OP_ARR_INSERT
    case ArrRead => OP_ARR_READ
  }

  function CondCode(c: Cond): Byte {
    match c
    case Eq => OP_JE
    case Ne => OP_JNE
    case Lt => OP_JL
    case Gt => OP_JG
  }

  // Bytes an instruction occupies: 12 for `load`, 8 for a branch, 4 otherwise.
  function Size<L>(i: Instr<L>): (n: nat) {
    if i.Load? then 12 else if i.Branch? then 8 else 4
  }

  // (opcode << 24) | (ra << 16) | (rb << 8) | rc, big-endian.
  function PackInstr(op: Byte, ra: Byte, rb: Byte, rc: Byte): seq<Byte> {
    PackU32(op * 0x100_0000 + ra * 0x1_0000 + rb * 0x100 + rc)
  }

  lemma {:induction false} PackInstrBytes(op: Byte, ra: Byte, rb: Byte, rc: Byte)
    ensures PackInstr(op, ra, rb, rc) == [op, ra, rb, rc]
  {
    var w := op * 0x100_0000 + ra * 0x1_0000 + rb * 0x100 + rc;
    LowByte(op * 0x1_0000 + ra * 0x100 + rb, rc, w);
    LowByte(op * 0x100 + ra, rb, w / 0x100);
    LowByte(op, ra, w / 0x100 / 0x100);
    Thrice(w);
  }

  lemma {:induction false} LowByte(high: nat, low: Byte, w: nat)
    requires w == high * 0x100 + low
    ensures w / 0x100 == high && w % 0x100 == low
  {
  }

  lemma {:induction false} Thrice(w: nat)
    ensures w / 0x1_0000 == w / 0x100 / 0x100 && w / 0x100_0000 == w / 0x100 / 0x100 / 0x100
  {
  }

  datatype Decoded = Decoded(opcode: Byte, ra: Byte, rb: Byte, rc: Byte)

  function Decode(instr: nat): Decoded {
    Decoded((instr / 0x100_0000) % 256, (instr / 0x1_0000) % 256, (instr / 0x100) % 256, instr % 256)
  }

  // The instruction word, as fields.
  function Fields<L>(i: Instr<L>): Decoded {
    match i
    case Op(m, ra, rb, rc) => Decoded(Opcode(m), ra, rb, rc)
    case Load(rd, _) => Decoded(OP_LOAD64, rd, 0, 0)
    case Call(idx) => Decoded(OP_CALL, (idx / 0x1_0000) % 256, (idx / 0x100) % 256, idx % 256)
    case Branch(c, _) => Decoded(CondCode(c), 0, 0, 0)
  }

  function PackFields(d: Decoded): seq<Byte> {
    PackInstr(d.opcode, d.ra, d.rb, d.rc)
  }

  // Fetching and decoding a packed word gives back its fields.
  lemma {:induction false} DecodePacked(bytes: seq<Byte>, at: nat, d: Decoded)
    requires at + 4 <= |bytes| && bytes[at..at + 4] == PackFields(d)
    ensures Decode(ReadU32(bytes, at)) == d
  {
    PackInstrBytes(d.opcode, d.ra, d.rb, d.rc);
    forall k | 0 <= k < 4 ensures bytes[at + k] == [d.opcode, d.ra, d.rb, d.rc][k] {
      assert bytes[at + k] == bytes[at..at + 4][k];
    }
    var w := ReadU32(bytes, at);
    assert w / 0x100_0000 == d.opcode;
    assert w / 0x1_0000 == d.opcode * 0x100 + d.ra;
    assert w / 0x100 == d.opcode * 0x1_0000 + d.ra * 0x100 + d.rb;
  }

  // What follows the instruction word: the immediate or the branch address.
  function Operand<L>(i: Instr<L>, target: int): (r: seq<Byte>)
    ensures |r| == Size(i) - 4
  {
    if i.Load? then PackU64(i.imm) else if i.Branch? then PackU32(target) else []
  }

  // The emitted bytes; `target` is the absolute address a branch carries.
  function Encode<L>(i: Instr<L>, target: int): (r: seq<Byte>)
    ensures |r| == Size(i)
  {
    PackFields(Fields(i)) + Operand(i, target)
  }

  // Fetching an encoded instruction gives back its fields and operand.
  lemma {:induction false} FetchEncoded<L>(bytes: seq<Byte>, at: nat, i: Instr<L>, target: int)
    requires at + Size(i) <= |bytes| && bytes[at..at + Size(i)] == Encode(i, target)
    ensures Decode(ReadU32(bytes, at)) == Fields(i)
    ensures i.Load? ==> ReadU32(bytes, at + 4) * TWO32 + ReadU32(bytes, at + 8) == i.imm
    ensures i.Branch? ==> ReadU32(bytes, at + 4) == target % TWO32
  {
    var n := Size(i);
    SliceOfSlice(bytes, at, n, PackFields(Fields(i)), Operand(i, target));
    DecodePacked(bytes, at, Fields(i));
    if i.Load? {
      ReadPacked64(bytes, at + 4, i.imm);
    } else if i.Branch? {
      ReadPacked(bytes, at + 4, target);
    }
  }

  lemma {:induction false} SliceOfSlice(bytes: seq<Byte>, at: nat, n: nat, a: seq<Byte>, b: seq<Byte>)
    requires at + n <= |bytes| && bytes[at..at + n] == a + b
    ensures bytes[at..at + |a|] == a && bytes[at + |a|..at + n] == b
  {
    var e := bytes[at..at + n];
    assert bytes[at..at + |a|] == e[..|a|];
    assert bytes[at + |a|..at + n] == e[|a|..];
  }

  // Distinct mnemonics have distinct opcodes, none of them used by another form.
  lemma {:induction false} OpcodesDistinct(m: Mnemonic, n: Mnemonic, c: Cond)
    ensures Opcode(m) == Opcode(n) ==> m == n
    ensures Opcode(m) != CondCode(c) && Opcode(m) != OP_CALL && Opcode(m) != OP_LOAD64
  {
  }

  // The 24-bit function index split over three fields is put back together by `call`.
  lemma {:induction false} CallIndex(idx: Index24)
    ensures (idx / 0x1_0000) % 256 * 0x1_0000 + (idx / 0x100) % 256 * 0x100 + idx % 256 == idx
  {
    var n: int := idx;
    var a := n / 0x100;
    var b := a / 0x100;
    assert b == n / 0x1_0000 && 0 <= b < 256;
    assert n == b * 0x1_0000 + a % 256 * 0x100 + n % 256;
  }
}

// Literal operands of `load` (encode_value of the assembler).
module Literals {
  import opened Words
  import opened Wrappers
  import opened Bytes

  const INFINITY: int := 0x7FF0_0000_0000_0000
  const QUIET_NAN: int := 0x7FF8_0000_0000_0000

  // The bit patterns Python's float gives for a text: a finite number, an infinity, or the quiet
  // NaN without payload, each with either sign.
  predicate FloatPattern(w: Word) {
    IsDouble(w) || w % TWO63 == INFINITY || w % TWO63 == QUIET_NAN
  }

  type DoubleWord = w: Word | FloatPattern(w) witness 0

  datatype Literal = Null | Bool(b: bool) | Chars(text: seq<Byte>) | Int(n: int) | Double(w: DoubleWord)

  function LittleEndian(bytes: seq<Byte>): nat {
    if bytes == [] then 0 else bytes[0] + 256 * LittleEndian(bytes[1..])
  }

  // None for a text of more than six characters.
  function EncodeLiteral(l: Literal): Option<Word> {
    match l
    case Null => Some(Box(TAG_NULL, 0))
    case Bool(b) => Some(EncodeBool(b))
    case Chars(text) => if |text| > 6 then None else Some(Box(TAG_CHAR6, LittleEndian(text)))
    case Int(n) => Some(EncodeInt(n))
    case Double(w) => Some(w)
  }

  // Infinities carry tag 0 and the quiet NaN tag 8.
  lemma {:induction false} FloatsArePlain(w: Word)
    requires FloatPattern(w)
    ensures !IsPointer(w)
  {
    if !IsDouble(w) {
      var sign := w / TWO63;
      assert 0 <= sign < 2 && w == sign * TWO63 + w % TWO63;
      assert w / TWO48 == sign * 0x8000 + 0x7FF0 || w / TWO48 == sign * 0x8000 + 0x7FF8;
    }
  }

  lemma {:induction false} LiteralsArePlain(l: Literal)
    ensures EncodeLiteral(l).Some? ==> !IsPointer(EncodeLiteral(l).value)
  {
    if l.Double? {
      FloatsArePlain(l.w);
    } else if l.Bool? {
      BoxingRoundTrip(0, 0, l.b);
    } else if l.Int? {
      BoxingRoundTrip(l.n, 0, false);
    }
  }

  // The word a literal stands for: null, true and false are one word each, an int keeps its low 48
  // bits below 7FF1, a double is itself.
  lemma {:induction false} LiteralWords(l: Literal)
    ensures EncodeLiteral(l) == None <==> l.Chars? && |l.text| > 6
    ensures l == Null ==> EncodeLiteral(l) == Some(0x7FF5_0000_0000_0000)
    ensures l == Bool(true) ==> EncodeLiteral(l) == Some(0x7FF3_0000_0000_0001) && DecodeBool(0x7FF3_0000_0000_0001)
    ensures l == Bool(false) ==> EncodeLiteral(l) == Some(0x7FF3_0000_0000_0000) && !DecodeBool(0x7FF3_0000_0000_0000)
    ensures l.Double? ==> EncodeLiteral(l) == Some(l.w)
    ensures l.Int? && -0x8000_0000_0000 <= l.n < 0x8000_0000_0000 ==>
              EncodeLiteral(l) == Some(if l.n >= 0 then 0x7FF1_0000_0000_0000 + l.n else 0x7FF2_0000_0000_0000 + l.n)
  {
    if l.Int? {
      BoxedWords(l.n, 0, true);
    }
  }

  // Characters stand in the payload of 7FF4, the first in the lowest byte.
  lemma {:induction false} CharsWord(c0: Byte, c1: Byte, c2: Byte, c3: Byte, c4: Byte, c5: Byte)
    ensures EncodeLiteral(Chars([c0, c1, c2, c3, c4, c5])) ==
              Some(0x7FF4_0000_0000_0000 + c0 + 0x100 * c1 + 0x1_0000 * c2 + 0x100_0000 * c3 + 0x1_0000_0000 * c4 +
                   0x100_0000_0000 * c5)
  {
    assert LittleEndian([c5]) == c5;
    assert LittleEndian([c4, c5]) == c4 + 0x100 * c5;
    assert LittleEndian([c3, c4, c5]) == c3 + 0x100 * c4 + 0x1_0000 * c5;
    assert LittleEndian([c2, c3, c4, c5]) == c2 + 0x100 * c3 + 0x1_0000 * c4 + 0x100_0000 * c5;
    assert LittleEndian([c1, c2, c3, c4, c5]) ==
           c1 + 0x100 * c2 + 0x1_0000 * c3 + 0x100_0000 * c4 + 0x1_0000_0000 * c5;
    assert LittleEndian([c0, c1, c2, c3, c4, c5]) ==
           c0 + 0x100 * c1 + 0x1_0000 * c2 + 0x100_0000 * c3 + 0x1_0000_0000 * c4 + 0x100_0000_0000 * c5;
  }

  // The first n bytes of a number, low byte first: what decodeChar6 reads from the payload.
  function BytesOf(v: nat, n: nat): (r: seq<Byte>)
    ensures |r| == n
  {
    if n == 0 then [] else [v % 256] + BytesOf(v / 256, n - 1)
  }

  function Padded(bytes: seq<Byte>, n: nat): (r: seq<Byte>)
    requires |bytes| <= n
    ensures |r| == n
  {
    seq(n, k requires 0 <= k < n => if k < |bytes| then bytes[k] else 0)
  }

  lemma {:induction false} BytesBack(bytes: seq<Byte>, n: nat)
    requires |bytes| <= n
    ensures BytesOf(LittleEndian(bytes), n) == Padded(bytes, n)
  {
    if n == 0 {
    } else if bytes == [] {
      BytesBack([], n - 1);
      assert Padded([], n) == [0] + Padded([], n - 1);
    } else {
      BytesBack(bytes[1..], n - 1);
      assert LittleEndian(bytes) % 256 == bytes[0] && LittleEndian(bytes) / 256 == LittleEndian(bytes[1..]);
      assert Padded(bytes, n) == [bytes[0]] + Padded(bytes[1..], n - 1);
    }
  }

  lemma {:induction false} LittleEndianBound(bytes: seq<Byte>, n: nat)
    requires |bytes| <= n
    ensures LittleEndian(bytes) < Pow256(n)
  {
    if bytes != [] {
      LittleEndianBound(bytes[1..], n - 1);
    } else {
      PowPositive(n);
    }
  }

  function Pow256(n: nat): nat {
    if n == 0 then 1 else 256 * Pow256(n - 1)
  }

  lemma {:induction false} PowPositive(n: nat)
    ensures Pow256(n) >= 1
  {
    if n > 0 {
      PowPositive(n - 1);
    }
  }

  lemma {:induction false} SixBytes()
    ensures Pow256(6) == TWO48
  {
    assert Pow256(2) == 0x1_0000;
    assert Pow256(4) == 0x1_0000 * Pow256(2);
    assert Pow256(6) == 0x1_0000 * Pow256(4);
  }

  // A text of up to six characters is read back from the boxed word, padded with zero bytes.
  lemma {:induction false} CharsRoundTrip(text: seq<Byte>)
    requires |text| <= 6
    ensures IsChar6(EncodeLiteral(Chars(text)).value)
    ensures BytesOf(Payload(EncodeLiteral(Chars(text)).value), 6) == Padded(text, 6)
  {
    hide BytesOf, Padded, LittleEndian, Pow256;
    LittleEndianBound(text, 6);
    SixBytes();
    BytesBack(text, 6);
  }
}
