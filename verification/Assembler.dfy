// The assembler: raw bytes grow as lines are read, branches leave a patch behind, and
// emission lays the functions out and fills the patches in (tools/assembler/assembler.py).
module Layout {
  import opened Words
  import opened Bytes
  import opened Isa
  import opened Chunks
  import opened Assembly

  function Zeros(n: nat): (r: seq<int>)
    ensures |r| == n
  {
    seq(n, _ => 0)
  }

  // ---------- a program as a sequence of linked functions ----------

  function Base(p: Program, n: nat): nat
    requires n <= |p|
  {
    StartMonotone(p, n, |p|);
    CodeOffset(|p|) + Off(Flat(p), Start(p, n))
  }

  // Instruction j of function n lies at the function's base plus its byte offset there.
  lemma {:induction false} AddressInFunction(p: Program, n: nat, j: nat)
    requires n < |p| && j <= |p[n].body|
    ensures Start(p, n) + j <= |Flat(p)|
    ensures CodeOffset(|p|) + Off(Flat(p), Start(p, n) + j) == Base(p, n) + Off(p[n].body, j)
  {
    StartMonotone(p, n, |p|);
    if j > 0 {
      AddressInFunction(p, n, j - 1);
      FlatAt(p, n, j - 1);
    }
  }

  lemma {:induction false} BaseStep(p: Program, n: nat)
    requires n < |p|
    ensures Base(p, n + 1) == Base(p, n) + Off(p[n].body, |p[n].body|)
  {
    AddressInFunction(p, n, |p[n].body|);
  }

  // The branch addresses of a function placed at `base`.
  function LinkTargets(f: Func, base: nat): (r: seq<int>)
    requires ValidFunc(f)
    ensures |r| == |f.body|
    ensures forall k {:trigger r[k]} :: 0 <= k < |r| ==>
              r[k] == if f.body[k].Branch? then base + Off(f.body, LabelIndex(f, f.body[k])) else 0
  {
    seq(|f.body|, k requires 0 <= k < |f.body| =>
      if f.body[k].Branch? then base + Off(f.body, LabelIndex(f, f.body[k])) else 0)
  }

  function LinkedChunks(f: Func, base: nat): (r: seq<seq<Byte>>)
    requires ValidFunc(f)
    ensures |r| == |f.body|
  {
    Encodings(f.body, LinkTargets(f, base))
  }

  function Linked(p: Program, n: nat): seq<Byte>
    requires ValidProgram(p) && n < |p|
  {
    JoinAll(LinkedChunks(p[n], Base(p, n)))
  }

  function LinkedBlocks(p: Program): (r: seq<seq<Byte>>)
    requires ValidProgram(p)
    ensures |r| == |p| && forall n {:trigger r[n]} :: 0 <= n < |r| ==> r[n] == Linked(p, n)
  {
    seq(|p|, n requires 0 <= n < |p| => Linked(p, n))
  }

  // Each instruction of function n is encoded in place as the function's own linked chunk.
  lemma {:induction false} ChunkInFunction(p: Program, n: nat, k: nat)
    requires ValidProgram(p) && AllDefined(p) && ValidCode(Resolve(p)) && n < |p| && k < |p[n].body|
    ensures Start(p, n) + k < |Flat(p)|
    ensures Encodings(Flat(p), Targets(Resolve(p)))[Start(p, n) + k] == LinkedChunks(p[n], Base(p, n))[k]
  {
    var f, at := p[n], Start(p, n) + k;
    FlatAt(p, n, k);
    assert LabelsDefined(f) && ValidFunc(f);
    AddressInFunction(p, n, LabelIndex(f, f.body[k]));
    assert Targets(Resolve(p))[at] == LinkTargets(f, Base(p, n))[k];
  }

  lemma {:induction false} FunctionSlice(p: Program, n: nat, cs: seq<seq<Byte>>)
    requires ValidProgram(p) && AllDefined(p) && ValidCode(Resolve(p)) && n < |p|
    requires cs == Encodings(Flat(p), Targets(Resolve(p)))
    ensures Start(p, n) <= Start(p, n + 1) <= |cs|
    ensures cs[Start(p, n)..Start(p, n + 1)] == LinkedChunks(p[n], Base(p, n))
  {
    StartMonotone(p, n + 1, |p|);
    var ds := LinkedChunks(p[n], Base(p, n));
    forall k: nat {:trigger ds[k]} | k < |ds| ensures cs[Start(p, n) + k] == ds[k] {
      ChunkInFunction(p, n, k);
    }
    SliceIs(cs, Start(p, n), Start(p, n + 1), ds);
  }

  // The linked functions end to end are the code section of the resolved program.
  lemma {:induction false} LinkedProgram(p: Program)
    requires ValidProgram(p) && AllDefined(p) && ValidCode(Resolve(p))
    ensures CodeBytes(Resolve(p)) == JoinAll(LinkedBlocks(p))
  {
    hide ValidCode, Flat, Encodings, Targets, Encode;
    var cs := Encodings(Flat(p), Targets(Resolve(p)));
    var at: seq<nat> := seq(|p| + 1, n requires 0 <= n <= |p| => Start(p, n));
    forall n: nat | n < |p| ensures GroupAt(cs, at, LinkedBlocks(p), n) {
      FunctionSlice(p, n, cs);
    }
    JoinGroups(cs, at, LinkedBlocks(p), |p|);
  }
}

// The Assembler class of the source: `functions` is its list of dictionaries.
module Assembler {
  import opened Words
  import opened Wrappers
  import opened Bytes
  import opened Isa
  import opened Chunks
  import opened Literals
  import opened Assembly
  import opened Layout

  datatype Patch = Patch(off: nat, name: string)

  // One dictionary of `functions`.  Offsets are in bytes from the start of `raw`.
  datatype Block = Block(name: string, frameSize: int, labels: map<string, nat>, patches: seq<Patch>, raw: seq<Byte>)

  // ---------- what a block holds ----------

  function PatchList(body: seq<Instr<string>>, k: nat): seq<Patch>
    requires k <= |body|
  {
    if k == 0 then []
    else PatchList(body, k - 1) + if body[k - 1].Branch? then [Patch(Off(body, k - 1), body[k - 1].target)] else []
  }

  // Labels and patches in bytes, branch addresses still zero.
  ghost predicate Lowered(f: Func, b: Block)
    requires ValidFunc(f)
  {
    b.name == f.name && b.frameSize == f.frameSize &&
    b.raw == JoinAll(Encodings(f.body, Zeros(|f.body|))) &&
    b.labels.Keys == f.labels.Keys &&
    (forall l :: l in f.labels ==> b.labels[l] == Off(f.body, f.labels[l])) &&
    b.patches == PatchList(f.body, |f.body|)
  }

  lemma {:induction false} OffAppend<L>(body: seq<Instr<L>>, i: Instr<L>, k: nat)
    requires k <= |body|
    ensures Off(body + [i], k) == Off(body, k)
  {
    if k > 0 {
      OffAppend(body, i, k - 1);
    }
  }

  lemma {:induction false} PatchesAppend(body: seq<Instr<string>>, i: Instr<string>, k: nat)
    requires k <= |body|
    ensures PatchList(body + [i], k) == PatchList(body, k)
  {
    if k > 0 {
      PatchesAppend(body, i, k - 1);
      OffAppend(body, i, k - 1);
    }
  }

  lemma {:induction false} RawLength(f: Func)
    ensures |JoinAll(Encodings(f.body, Zeros(|f.body|)))| == Off(f.body, |f.body|)
  {
    LenIsOff(f.body, Zeros(|f.body|), |f.body|);
  }

  lemma {:induction false} RawAppend(body: seq<Instr<string>>, i: Instr<string>)
    ensures JoinAll(Encodings(body + [i], Zeros(|body| + 1))) == JoinAll(Encodings(body, Zeros(|body|))) + Encode(i, 0)
  {
    var n := |body|;
    var cs, ds := Encodings(body, Zeros(n)), Encodings(body + [i], Zeros(n + 1));
    assert cs <= ds;
    JoinPrefix(cs, ds, n);
  }

  // The block after one more instruction; a branch leaves a patch at its offset.
  function Extend(b: Block, i: Instr<string>): Block {
    b.(raw := b.raw + Encode(i, 0), patches := b.patches + if i.Branch? then [Patch(|b.raw|, i.target)] else [])
  }

  // Emitting one more instruction keeps the block lowered.
  lemma {:induction false} LoweredAppend(f: Func, b: Block, i: Instr<string>)
    requires ValidFunc(f) && Lowered(f, b)
    ensures ValidFunc(Append(f, i))
    ensures Lowered(Append(f, i), Extend(b, i))
  {
    var n := |f.body|;
    RawLength(f);
    RawAppend(f.body, i);
    PatchesAppend(f.body, i, n);
    OffAppend(f.body, i, n);
    forall l | l in f.labels ensures Off(f.body + [i], f.labels[l]) == Off(f.body, f.labels[l]) {
      OffAppend(f.body, i, f.labels[l]);
    }
  }

  // A label defined now names the next instruction and the current end of the bytes.
  // The name with its capitals folded to lower case now stands for `at`; no other name is added or
  // changed.
  ghost predicate LabelAdded(was: map<string, nat>, now: map<string, nat>, name: string, at: nat) {
    (forall r :: r in now <==> r in was || Folds(name, r)) &&
    forall r :: r in now ==> now[r] == if Folds(name, r) then at else was[r]
  }

  lemma {:induction false} AddLabel(was: map<string, nat>, name: string, at: nat)
    ensures LabelAdded(was, was[Lower(name) := at], name, at)
  {
    forall r ensures Lower(name) == r <==> Folds(name, r) {
      LowerFolds(name, r);
    }
    hide Lower, Folds;
  }

  lemma {:induction false} LoweredLabel(f: Func, b: Block, l: string)
    requires ValidFunc(f) && Lowered(f, b)
    ensures ValidFunc(f.(labels := f.labels[l := |f.body|]))
    ensures Lowered(f.(labels := f.labels[l := |f.body|]), b.(labels := b.labels[l := |b.raw|]))
  {
    RawLength(f);
  }

  // ---------- filling the patches in ----------

  // A branch has a label and, with f placed at base, a 32-bit address.
  predicate FitsAt(f: Func, base: nat, k: nat)
    requires ValidFunc(f) && k < |f.body|
  {
    f.body[k].Branch? ==> f.body[k].target in f.labels && base + Off(f.body, f.labels[f.body[k].target]) < TWO32
  }

  predicate Fits(f: Func, base: nat)
    requires ValidFunc(f)
  {
    forall k: nat {:trigger FitsAt(f, base, k)} :: k < |f.body| ==> FitsAt(f, base, k)
  }

  // Branch k is the first that cannot be patched, and e is why.
  predicate FaultAt(f: Func, base: nat, k: nat, e: AsmError)
    requires ValidFunc(f) && k < |f.body|
  {
    !FitsAt(f, base, k) && (forall i: nat {:trigger FitsAt(f, base, i)} :: i < k ==> FitsAt(f, base, i)) &&
    e == if f.body[k].target in f.labels then AddressOutOfRange else UndefinedLabel
  }

  ghost predicate Fault(f: Func, base: nat, e: AsmError)
    requires ValidFunc(f)
  {
    exists k: nat :: k < |f.body| && FaultAt(f, base, k, e)
  }

  // Function n is the first with such a branch.
  ghost predicate LinkFault(p: Program, n: nat, e: AsmError)
    requires ValidProgram(p) && n < |p|
  {
    Fault(p[n], Base(p, n), e) && forall m {:trigger Base(p, m)} :: 0 <= m < n ==> Fits(p[m], Base(p, m))
  }

  // Why a program cannot be emitted: its first bad branch, or code starting past 32-bit addresses.
  ghost predicate EmitFault(p: Program, e: AsmError)
    requires ValidProgram(p)
  {
    (exists n: nat :: n < |p| && LinkFault(p, n, e)) || (e == AddressOutOfRange && CodeOffset(|p|) >= TWO32)
  }

  predicate Emittable(p: Program)
    requires ValidProgram(p)
  {
    CodeOffset(|p|) < TWO32 && forall n {:trigger Base(p, n)} :: 0 <= n < |p| ==> Fits(p[n], Base(p, n))
  }

  lemma {:induction false} PatchPrefix(body: seq<Instr<string>>, m: nat, n: nat)
    requires m <= n <= |body|
    ensures PatchList(body, m) <= PatchList(body, n)
  {
    if m < n {
      PatchPrefix(body, m, n - 1);
    }
  }

  // The j-th patch belongs to the first branch not yet patched.
  lemma {:induction false} NextBranch(body: seq<Instr<string>>, m: nat, j: nat) returns (k: nat)
    requires m <= |body| && |PatchList(body, m)| == j < |PatchList(body, |body|)|
    ensures m <= k < |body| && body[k].Branch? && PatchList(body, |body|)[j] == Patch(Off(body, k), body[k].target)
    ensures forall i :: m <= i < k ==> !body[i].Branch?
    ensures |PatchList(body, k + 1)| == j + 1
    decreases |body| - m
  {
    if body[m].Branch? {
      k := m;
      PatchPrefix(body, m + 1, |body|);
    } else {
      k := NextBranch(body, m + 1, j);
    }
  }

  lemma {:induction false} NoMoreBranches(body: seq<Instr<string>>, m: nat, n: nat)
    requires m <= n <= |body| && |PatchList(body, m)| == |PatchList(body, n)|
    ensures forall i :: m <= i < n ==> !body[i].Branch?
  {
    if m < n {
      PatchPrefix(body, m, n - 1);
      NoMoreBranches(body, m, n - 1);
    }
  }

  // struct.pack_into('>I', raw, at, n).
  function PackInto(raw: seq<Byte>, at: nat, n: int): seq<Byte>
    requires at + 4 <= |raw|
  {
    raw[..at] + PackU32(n) + raw[at + 4..]
  }

  lemma {:induction false} Overwrite(all: seq<Byte>, o: nat, head: seq<Byte>, old4: seq<Byte>, new4: seq<Byte>)
    requires |head| == |old4| == |new4| == 4 && o + 8 <= |all| && all[o..o + 8] == head + old4
    ensures all[..o + 4] + new4 + all[o + 8..] == all[..o] + (head + new4) + all[o + 8..]
  {
    assert all[..o + 4] == all[..o] + all[o..o + 8][..4];
  }

  // Chunk k of cs is head + old4; giving it new4 instead overwrites four bytes of the whole.
  lemma {:induction false} JoinOverwrite(cs: seq<seq<Byte>>, k: nat, head: seq<Byte>, old4: seq<Byte>, new4: seq<Byte>)
    requires k < |cs| && |head| == |old4| == |new4| == 4 && cs[k] == head + old4
    ensures var e, o := JoinAll(cs), Len(cs, k);
            o + 8 <= |e| && JoinAll(cs[k := head + new4]) == e[..o + 4] + new4 + e[o + 8..]
  {
    JoinSlice(cs, k, |cs|);
    JoinUpdate(cs, k, head + new4, |cs|);
    Overwrite(JoinAll(cs), Len(cs, k), head, old4, new4);
  }

  // Writing a branch's address into the bytes is choosing that address in the encoding.
  lemma {:induction false} PatchBytes(body: seq<Instr<string>>, ts: seq<int>, k: nat, t: int)
    requires |ts| == |body| && k < |body| && body[k].Branch?
    ensures var e, o := JoinAll(Encodings(body, ts)), Off(body, k);
            o + 8 <= |e| && JoinAll(Encodings(body, ts[k := t])) == PackInto(e, o + 4, t)
  {
    var cs := Encodings(body, ts);
    var head := PackFields(Fields(body[k]));
    LenIsOff(body, ts, k);
    JoinOverwrite(cs, k, head, PackU32(ts[k]), PackU32(t));
    assert Encodings(body, ts[k := t]) == cs[k := head + PackU32(t)];
  }

  // Branches before instruction m carry their address, later ones still zero.
  ghost predicate Patched(f: Func, base: nat, ts: seq<int>, m: nat)
    requires ValidFunc(f)
  {
    |ts| == |f.body| && m <= |f.body| &&
    (forall k: nat {:trigger ts[k]} :: k < |ts| ==> ts[k] == if k < m then LinkTargets(f, base)[k] else 0) &&
    (forall k: nat {:trigger FitsAt(f, base, k)} :: k < m ==> FitsAt(f, base, k))
  }

  lemma {:induction false} PatchAdvance(f: Func, base: nat, ts: seq<int>, m: nat, k: nat)
    requires ValidFunc(f) && Patched(f, base, ts, m) && m <= k < |f.body| && f.body[k].Branch? && FitsAt(f, base, k)
    requires forall i :: m <= i < k ==> !f.body[i].Branch?
    ensures Patched(f, base, ts[k := base + Off(f.body, f.labels[f.body[k].target])], k + 1)
  {
    var t := base + Off(f.body, f.labels[f.body[k].target]);
    assert LinkTargets(f, base)[k] == t;
  }

  // What resolving the j-th patch does, or why it cannot be resolved.
  lemma {:induction false} PatchStep(f: Func, base: nat, b: Block, ts: seq<int>, m: nat, j: nat) returns (k: nat)
    requires ValidFunc(f) && Lowered(f, b) && Patched(f, base, ts, m)
    requires |PatchList(f.body, m)| == j < |b.patches|
    ensures k < |f.body| && |PatchList(f.body, k + 1)| == j + 1
    ensures var p := b.patches[j];
            if p.name in b.labels && base + b.labels[p.name] < TWO32 then
              var e, t := JoinAll(Encodings(f.body, ts)), base + b.labels[p.name];
              p.off + 8 <= |e| && Patched(f, base, ts[k := t], k + 1) &&
              JoinAll(Encodings(f.body, ts[k := t])) == PackInto(e, p.off + 4, t)
            else FaultAt(f, base, k, if p.name in b.labels then AddressOutOfRange else UndefinedLabel)
  {
    hide JoinAll, PackInto, Encodings, PackU32;
    k := NextBranch(f.body, m, j);
    var l := f.body[k].target;
    if l in f.labels && base + Off(f.body, f.labels[l]) < TWO32 {
      PatchAdvance(f, base, ts, m, k);
      PatchBytes(f.body, ts, k, base + Off(f.body, f.labels[l]));
    }
  }

  lemma {:induction false} PatchDone(f: Func, base: nat, ts: seq<int>, m: nat)
    requires ValidFunc(f) && Patched(f, base, ts, m)
    requires forall i :: m <= i < |f.body| ==> !f.body[i].Branch?
    ensures ts == LinkTargets(f, base) && Fits(f, base)
  {
    var lt := LinkTargets(f, base);
    forall k: nat {:trigger ts[k]} | k < |ts| ensures ts[k] == lt[k] {
    }
  }

  lemma {:induction false} FitsDefined(p: Program)
    requires ValidProgram(p) && Emittable(p)
    ensures AllDefined(p)
  {
    forall n | 0 <= n < |p| ensures LabelsDefined(p[n]) {
      assert Fits(p[n], Base(p, n));
      forall k | 0 <= k < |p[n].body| && p[n].body[k].Branch? ensures p[n].body[k].target in p[n].labels {
        assert FitsAt(p[n], Base(p, n), k);
      }
    }
  }

  lemma {:induction false} PackTwo(ns: seq<int>, a: int, b: int)
    ensures PackWords(ns + [a, b]) == PackWords(ns) + PackU32(a) + PackU32(b)
  {
    assert ns + [a, b] == (ns + [a]) + [b];
  }

  lemma {:induction false} PackJoin(a: seq<int>, b: seq<int>)
    ensures PackWords(a + b) == PackWords(a) + PackWords(b)
  {
    if b == [] {
      assert a + b == a;
    } else {
      var n := |b| - 1;
      PackJoin(a, b[..n]);
      assert a + b == (a + b[..n]) + [b[n]];
      assert PackWords(a) + (PackWords(b[..n]) + PackU32(b[n])) == PackWords(a) + PackWords(b[..n]) + PackU32(b[n]);
    }
  }

  class Assembler {
    var functions: seq<Block>
    var inFunc: bool
    // The text read so far, as functions, instructions and label indices.
    ghost var source: Source

    ghost predicate Valid()
      reads this
    {
      ValidSource(source) && inFunc == source.open && |functions| == |source.funcs| &&
      forall n :: 0 <= n < |functions| ==> Lowered(source.funcs[n], functions[n])
    }

    constructor ()
      ensures Valid() && source == Source([], false)
    {
      functions := [];
      inFunc := false;
      source := Source([], false);
    }

    method BeginFunc(name: string, frameSize: int) returns (r: Result<(), AsmError>)
      requires Valid()
      modifies this
      ensures Valid()
      ensures r == if old(inFunc) then Err(NestedFunc) else Ok(())
      ensures source == if r.Ok? then Source(old(source.funcs) + [Func(name, frameSize, [], map[])], true)
              else old(source)
    {
      if inFunc {
        return Err(NestedFunc);
      }
      functions := functions + [Block(name, frameSize, map[], [], [])];
      inFunc := true;
      source := Source(source.funcs + [Func(name, frameSize, [], map[])], true);
      return Ok(());
    }

    method EndFunc() returns (r: Result<(), AsmError>)
      requires Valid()
      modifies this
      ensures Valid()
      ensures r == if old(inFunc) then Ok(()) else Err(StrayEndFunc)
      ensures source == old(source).(open := false)
    {
      if !inFunc {
        return Err(StrayEndFunc);
      }
      inFunc := false;
      source := source.(open := false);
      return Ok(());
    }

    method DefineLabel(name: string)
      requires Valid() && inFunc
      modifies this
      ensures Valid()
      ensures Feed(old(source), LabelLine(name)) == Ok(source)
      ensures var n := |functions| - 1;
              functions == old(functions)[n := old(functions)[n].(labels := functions[n].labels)] &&
              LabelAdded(old(functions)[n].labels, functions[n].labels, name, |functions[n].raw|)
    {
      hide Lower, LabelAdded, Lowered, EncodeLiteral;
      var n := |functions| - 1;
      AddLabel(functions[n].labels, name, |functions[n].raw|);
      var b := functions[n];
      ghost var f := source.funcs[n];
      LoweredLabel(f, b, Lower(name));
      functions := functions[n := b.(labels := b.labels[Lower(name) := |b.raw|])];
      source := source.(funcs := SetLast(source.funcs, f.(labels := f.labels[Lower(name) := |f.body|])));
    }

    // `_emit`, with the patch a branch leaves behind.
    method Emit(i: Instr<string>)
      requires Valid() && inFunc
      modifies this
      ensures Valid()
      ensures source == old(source).(funcs :=
                SetLast(old(source).funcs, Append(old(source).funcs[|old(source).funcs| - 1], i)))
    {
      var n := |functions| - 1;
      var b := functions[n];
      LoweredAppend(source.funcs[n], b, i);
      functions := functions[n := Extend(b, i)];
      source := source.(funcs := SetLast(source.funcs, Append(source.funcs[n], i)));
    }

    method HandleLine(line: Line) returns (r: Result<(), AsmError>)
      requires Valid()
      modifies this
      ensures Valid()
      ensures var s := Feed(old(source), line);
              if s.Ok? then r.Ok? && source == s.value else r == Err(s.error) && source == old(source)
    {
      match line
      case FuncLine(name, size) =>
        r := BeginFunc(name, size);
      case EndFuncLine =>
        r := EndFunc();
      case LabelLine(name) =>
        if !inFunc {
          return Err(OutsideFunc);
        }
        DefineLabel(name);
        r := Ok(());
      case LoadLine(rd, literal) =>
        if !inFunc {
          return Err(OutsideFunc);
        }
        var w := EncodeLiteral(literal);
        if w.None? {
          return Err(LiteralTooLong);
        }
        Emit(Load(rd, w.value));
        r := Ok(());
      case CallLine(index) =>
        if !inFunc {
          return Err(OutsideFunc);
        }
        if !(0 <= index < 0x100_0000) {
          return Err(IndexOutOfRange);
        }
        Emit(Call(index));
        r := Ok(());
      case InstrLine(i) =>
        if !inFunc {
          return Err(OutsideFunc);
        }
        Emit(i);
        r := Ok(());
    }

    method PackIntoRaw(fi: nat, at: nat, n: int)
      requires fi < |functions| && at + 4 <= |functions[fi].raw|
      modifies this`functions
      ensures functions == old(functions)[fi := old(functions[fi]).(raw := PackInto(old(functions[fi].raw), at, n))]
    {
      var b := functions[fi];
      functions := functions[fi := b.(raw := PackInto(b.raw, at, n))];
    }

    // Resolve the patches of one function placed at `base`, in place.
    method PatchBlock(fi: nat, base: nat) returns (r: Result<(), AsmError>)
      requires ValidSource(source) && fi < |functions| == |source.funcs| && Lowered(source.funcs[fi], functions[fi])
      modifies this`functions
      ensures r.Ok? <==> Fits(source.funcs[fi], base)
      ensures r.Err? ==> Fault(source.funcs[fi], base, r.error)
      ensures r.Ok? ==>
                functions == old(functions)[fi :=
                  old(functions[fi]).(raw := JoinAll(LinkedChunks(source.funcs[fi], base)))]
    {
      hide JoinAll, PackInto, Encodings, PackU32;
      ghost var f := source.funcs[fi];
      ghost var ts := Zeros(|f.body|);
      ghost var m := 0;
      var b := functions[fi];
      for j := 0 to |b.patches|
        invariant Patched(f, base, ts, m) && |PatchList(f.body, m)| == j
        invariant functions == old(functions)[fi := b.(raw := JoinAll(Encodings(f.body, ts)))]
      {
        var p := b.patches[j];
        ghost var k := PatchStep(f, base, b, ts, m, j);
        if p.name !in b.labels {
          return Err(UndefinedLabel);
        }
        var labelAbs := base + b.labels[p.name];
        if labelAbs >= 0x1_0000_0000 {
          return Err(AddressOutOfRange);
        }
        PackIntoRaw(fi, p.off + 4, labelAbs);
        ts, m := ts[k := labelAbs], k + 1;
      }
      NoMoreBranches(f.body, m, |f.body|);
      PatchDone(f, base, ts, m);
      return Ok(());
    }

    // Each function's address: the functions follow each other from codeOffset on.
    method LayOut() returns (bases: seq<nat>)
      requires Valid()
      ensures |bases| == |source.funcs| && forall n :: 0 <= n < |bases| ==> bases[n] == Base(source.funcs, n)
    {
      hide JoinAll, Encodings, PackU32;
      ghost var p := source.funcs;
      var pos := CodeOffset(|functions|);
      bases := [];
      for i := 0 to |functions|
        invariant |bases| == i && pos == Base(p, i)
        invariant forall n :: 0 <= n < i ==> bases[n] == Base(p, n)
      {
        bases := bases + [pos];
        RawLength(p[i]);
        BaseStep(p, i);
        pos := pos + |functions[i].raw|;
      }
    }

    // Every function is placed, every patch resolved.
    ghost predicate AllLinked(bases: seq<nat>)
      reads this
    {
      ValidSource(source) && |functions| == |source.funcs| == |bases| &&
      (forall n {:trigger bases[n]} :: 0 <= n < |bases| ==> bases[n] == Base(source.funcs, n)) &&
      forall n {:trigger functions[n]} :: 0 <= n < |functions| ==>
        functions[n].frameSize == source.funcs[n].frameSize && functions[n].raw == Linked(source.funcs, n)
    }

    method ResolvePatches(bases: seq<nat>) returns (r: Result<(), AsmError>)
      requires Valid() && |bases| == |source.funcs| &&
               forall n :: 0 <= n < |bases| ==> bases[n] == Base(source.funcs, n)
      modifies this`functions
      ensures r.Ok? <==>
                forall n {:trigger Base(source.funcs, n)} ::
                  0 <= n < |bases| ==> Fits(source.funcs[n], Base(source.funcs, n))
      ensures r.Err? ==> exists n: nat :: n < |source.funcs| && LinkFault(source.funcs, n, r.error)
      ensures r.Ok? ==> AllLinked(bases)
    {
      hide JoinAll, Encodings, PackU32, Base, Fits, Fault;
      ghost var p := source.funcs;
      for i := 0 to |functions|
        invariant |functions| == |bases|
        invariant forall n :: i <= n < |bases| ==> functions[n] == old(functions[n])
        invariant forall n {:trigger Base(p, n)} :: 0 <= n < i ==> Fits(p[n], Base(p, n))
        invariant forall n {:trigger functions[n]} :: 0 <= n < i ==>
                    functions[n].frameSize == p[n].frameSize && functions[n].raw == Linked(p, n)
      {
        var e := PatchBlock(i, bases[i]);
        if e.Err? {
          assert !Fits(p[i], Base(p, i)) && LinkFault(p, i, e.error);
          return Err(e.error);
        }
      }
      return Ok(());
    }

    method FunctionTable(bases: seq<nat>) returns (table: seq<Byte>)
      requires AllLinked(bases) && ValidCode(Resolve(source.funcs))
      ensures table == PackWords(TableWords(Resolve(source.funcs), |functions|))
    {
      hide Linked, PackU32;
      ghost var c := Resolve(source.funcs);
      table := [];
      for i := 0 to |functions|
        invariant table == PackWords(TableWords(c, i))
      {
        PackTwo(TableWords(c, i), bases[i], functions[i].frameSize);
        table := table + PackU32(bases[i]) + PackU32(functions[i].frameSize);
      }
    }

    method CodeSection(ghost bases: seq<nat>) returns (code: seq<Byte>)
      requires AllLinked(bases)
      ensures code == JoinAll(LinkedBlocks(source.funcs))
    {
      hide Linked, Base;
      code := [];
      for i := 0 to |functions|
        invariant code == Join(LinkedBlocks(source.funcs), i)
      {
        code := code + functions[i].raw;
      }
    }

    // The whole file: header, function table, code.
    method EmitBinary() returns (r: Result<seq<Byte>, AsmError>)
      requires Valid() && !inFunc
      modifies this`functions
      ensures r.Ok? <==> Emittable(source.funcs)
      ensures r.Err? ==> EmitFault(source.funcs, r.error)
      ensures r.Ok? ==> AllDefined(source.funcs) && ValidCode(Resolve(source.funcs))
      ensures r.Ok? ==> r.value == Image(Resolve(source.funcs))
    {
      hide JoinAll, Encodings, PackU32, Base, Linked, TableWords, LinkedBlocks, Fits, LinkFault;
      var count := |functions|;
      var codeOffset := CodeOffset(count);
      var bases := LayOut();
      var e := ResolvePatches(bases);
      if e.Err? {
        return Err(e.error);
      }
      if codeOffset >= 0x1_0000_0000 {
        return Err(AddressOutOfRange);
      }
      ResolveValid(source.funcs);
      FitsDefined(source.funcs);
      var table := FunctionTable(bases);
      var code := CodeSection(bases);
      LinkedProgram(source.funcs);
      PackJoin(HeaderWords(count), TableWords(Resolve(source.funcs), count));
      r := Ok(PackWords(HeaderWords(count)) + table + code);
    }

    // Read a whole text and emit it.
    method Assemble(lines: seq<Line>) returns (r: Result<seq<Byte>, AsmError>)
      requires Valid() && source == Source([], false)
      modifies this
      ensures var p := ParseLines(lines);
              if p.Err? then r == Err(p.error)
              else (r.Ok? <==> Emittable(p.value)) && (r.Err? ==> EmitFault(p.value, r.error)) &&
                   (r.Ok? ==> AllDefined(p.value) && ValidCode(Resolve(p.value)) && r.value == Image(Resolve(p.value)))
    {
      hide Feed, Emittable, Image, EmitFault;
      for n := 0 to |lines|
        invariant Valid() && FeedAll(lines[..n]) == Ok(source)
      {
        var e := HandleLine(lines[n]);
        assert lines[..n + 1][..n] == lines[..n];
        if e.Err? {
          FeedFails(lines, n + 1);
          return Err(e.error);
        }
      }
      assert lines[..|lines|] == lines;
      if inFunc {
        return Err(Unterminated);
      }
      r := EmitBinary();
    }
  }
}
