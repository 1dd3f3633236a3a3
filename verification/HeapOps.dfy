// What the VM does to the heap: new arrays, element access, collections; and the invariant
// that every sequence of these keeps (src/vm/Heap.cpp:50-57, 138-171).
//
// initArray and moveArray take an object's payload for an arrayObj, which begins with a header of
// its own.  So, counted in words from the payload's start, words 0 and 1 are never stored to,
// word 2 holds element type and length, element i is word 3 + i; while the object ends with word
// `length`.  The last two elements are stored behind the object.
module HeapOps {
  import opened Words
  import opened Wrappers
  import opened Space
  import opened Collector

  // sizeof(arrayObj): header, element type, length.
  const ARRAY_HEADER: nat := 24

  // The payload word in which element 0 lies, and the one with type and length.
  const FIRST_ELEM: nat := 3
  const FIELDS: nat := 2

  // align(sizeof(objHeader) + length * 8 + 2 * 4)
  function ArraySize(length: nat): nat {
    Align(OBJ_HEADER + length * 8 + 8)
  }

  function ZeroWords(n: nat): (r: seq<Word>)
    ensures |r| == n && forall k :: 0 <= k < n ==> r[k] == 0
  {
    seq(n, _ => 0)
  }

  // ---------- memory outside objects ----------

  // What memory holds where nothing has been stored since its chunk was handed out.
  type Stale = nat -> Word

  function Content(stale: Stale, loose: map<nat, Word>, x: nat): Word {
    if x in loose then loose[x] else stale(x)
  }

  // The words memory holds from x on.
  function Contents(stale: Stale, loose: map<nat, Word>, x: nat, n: nat): (r: seq<Word>)
    ensures |r| == n && forall k :: 0 <= k < n ==> r[k] == Content(stale, loose, x + 8 * k)
  {
    seq(n, k requires 0 <= k < n => Content(stale, loose, x + 8 * k))
  }

  function WordAddr(a: nat, j: nat): nat {
    a + OBJ_HEADER + 8 * j
  }

  // Used up to an object's end, the chunk reaches behind x.
  predicate EndsIn(c: Chunk, end: nat, x: nat) {
    c.base < end == c.base + c.used && x + 8 <= c.base + CHUNK_SIZE
  }

  // The word at x lies in the chunk that ends with an object's end, behind all its objects.
  predicate FreeBehind(s: Space, end: nat, x: nat) {
    exists k :: 0 <= k < |s.chunks| && EndsIn(s.chunks[k], end, x)
  }

  // May word j of the object at a be stored to: is it in the object or free behind it?
  predicate Reachable(m: Mem, a: nat, j: nat)
    requires a in m.active.mem
  {
    var o := m.active.mem[a];
    j < |o.payload| || FreeBehind(m.active, a + o.size, WordAddr(a, j))
  }

  // Word j of the object at a, where it is known.
  function ReadWord(m: Mem, a: nat, j: nat): Option<Word>
    requires a in m.active.mem
  {
    var o := m.active.mem[a];
    if j < |o.payload| then Some(o.payload[j])
    else if Reachable(m, a, j) && WordAddr(a, j) in m.loose then Some(m.loose[WordAddr(a, j)])
    else None
  }

  function StoreWord(m: Mem, a: nat, j: nat, w: Word): Mem
    requires a in m.active.mem
  {
    var o := m.active.mem[a];
    if j < |o.payload| then m.(active := SetWord(m.active, a, j, w)) else m.(loose := m.loose[WordAddr(a, j) := w])
  }

  function SetWord(s: Space, a: nat, j: nat, w: Word): Space
    requires a in s.mem && j < |s.mem[a].payload|
  {
    s.(mem := s.mem[a := s.mem[a].(payload := s.mem[a].payload[j := w])])
  }

  // ---------- new arrays ----------

  // Two 32-bit fields, type below length.
  function FieldsWord(elemType: nat, length: nat): Word {
    elemType % TWO32 + TWO32 * (length % TWO32)
  }

  // All words of a new array from the payload's start, the first two as they were.
  function ArrayWords(w0: Word, w1: Word, length: nat, elemType: nat): (r: seq<Word>)
    ensures |r| == length + 3
  {
    [w0, w1, FieldsWord(elemType, length)] + ZeroWords(length)
  }

  // As many of them as the object holds.
  function NewObj(ws: seq<Word>): Obj
    requires |ws| >= 3
  {
    Obj(ArraySize(|ws| - 3), ObjArray, false, 0, ws[..|ws| - 2])
  }

  // The last two are stored behind it, from the fields on.
  function Spill(loose: map<nat, Word>, a: nat, ws: seq<Word>): map<nat, Word>
    requires |ws| >= 3
  {
    var first := if |ws| - 2 < FIELDS then loose else loose[WordAddr(a, |ws| - 2) := ws[|ws| - 2]];
    first[WordAddr(a, |ws| - 1) := ws[|ws| - 1]]
  }

  // Where an object of this size goes, if there is memory.
  function Spot(malloc: Malloc, others: set<nat>, s: Space, size: nat): nat {
    var r := Reserve(malloc, others, s, size);
    if r.None? then 0 else Top(r.value)
  }

  function NewWords(malloc: Malloc, stale: Stale, m: Mem, length: nat, elemType: nat): (r: seq<Word>)
    ensures |r| == length + 3
  {
    var a := Spot(malloc, Bases(m.idle), m.active, ArraySize(length));
    ArrayWords(Content(stale, m.loose, WordAddr(a, 0)), Content(stale, m.loose, WordAddr(a, 1)), length, elemType)
  }

  // The header address of a zeroed array in the active space.
  function NewArray(malloc: Malloc, stale: Stale, m: Mem, length: nat, elemType: nat): Option<(Mem, nat)> {
    var ws := NewWords(malloc, stale, m, length, elemType);
    var p := Place(malloc, Bases(m.idle), m.active, NewObj(ws));
    if p.None? then None
    else Some((m.(active := p.value.0, loose := Spill(m.loose, p.value.1, ws)), p.value.1))
  }

  lemma {:induction false} SpotIsPlace(malloc: Malloc, others: set<nat>, s: Space, o: Obj)
    ensures Place(malloc, others, s, o).Some? ==> Place(malloc, others, s, o).value.1 == Spot(malloc, others, s, o.size)
  {
  }

  // ---------- the invariant ----------

  // The payload fills the object; an array holds its length, if the word for it lies inside.
  ghost predicate ObjOk(o: Obj) {
    GoodSize(o.size) && !o.marked && o.forwarded == 0 && o.size == OBJ_HEADER + 8 * |o.payload| &&
    |o.payload| >= 1 && (o.kind == ObjArray && |o.payload| > FIELDS ==> o.payload[FIELDS] / TWO32 == |o.payload| - 1)
  }

  // Chunks parse exactly into aligned disjoint objects placed next-fit, totals agree, marks and
  // forwarding words are clear, the other space is empty.
  ghost predicate HeapOk(m: Mem) {
    SpaceOk(m.active) && WalkCovers(m.active) && Fitted(m.active) && m.idle == EMPTY &&
    forall a :: a in m.active.mem ==> ObjOk(m.active.mem[a])
  }

  lemma {:induction false} ArraySizeExact(length: nat)
    ensures ArraySize(length) == ARRAY_HEADER + 8 * length
  {
  }

  lemma {:induction false} FieldsBack(elemType: nat, length: nat)
    ensures FieldsWord(elemType, length) % TWO32 == elemType % TWO32
    ensures FieldsWord(elemType, length) / TWO32 == length % TWO32
  {
  }

  lemma {:induction false} NewObjOk(w0: Word, w1: Word, length: nat, elemType: nat)
    requires ArraySize(length) <= CHUNK_SIZE
    ensures var o := NewObj(ArrayWords(w0, w1, length, elemType));
            ObjOk(o) && o.kind == ObjArray && o.size == ArraySize(length) && |o.payload| == length + 1 &&
            o.payload[0] == w0 && (length > 0 ==> o.payload[1] == w1) &&
            (length > 1 ==> o.payload[2] == FieldsWord(elemType, length)) &&
            forall j :: 3 <= j <= length ==> o.payload[j] == 0
  {
    ArraySizeExact(length);
    FieldsBack(elemType, length);
    hide ArraySize, FieldsWord;
  }

  lemma {:induction false} EmptyHeapOk()
    ensures HeapOk(NO_HEAP)
  {
    EmptyWalk({});
  }

  lemma {:induction false} SizesFrame(mem: map<nat, Obj>, mem': map<nat, Obj>, ws: seq<nat>)
    requires forall a :: a in ws ==> a in mem && a in mem' && mem'[a].size == mem[a].size
    ensures Sizes(mem', ws) == Sizes(mem, ws)
  {
  }

  // A new array lies at a fresh address; nothing else in the heap moves or changes.
  lemma {:induction false} NewArrayKeeps(malloc: Malloc, stale: Stale, m: Mem, length: nat, elemType: nat)
    requires HeapOk(m) && ArraySize(length) <= CHUNK_SIZE && NewArray(malloc, stale, m, length, elemType).Some?
    ensures var (m', a) := NewArray(malloc, stale, m, length, elemType).value;
            var ws := NewWords(malloc, stale, m, length, elemType);
            HeapOk(m') && a !in m.active.mem && m'.active.mem == m.active.mem[a := NewObj(ws)] &&
            m'.loose == Spill(m.loose, a, ws) && a + 16 < 0x1_0000_0000_0000
  {
    var ws := NewWords(malloc, stale, m, length, elemType);
    NewObjOk(ws[0], ws[1], length, elemType);
    hide NewObj, ArrayWords, NewWords, ArraySize;
    PlaceKeeps(malloc, m, NewObj(ws));
  }

  lemma {:induction false} PlaceKeeps(malloc: Malloc, m: Mem, o: Obj)
    requires HeapOk(m) && ObjOk(o) && Place(malloc, Bases(m.idle), m.active, o).Some?
    ensures var (t, a) := Place(malloc, Bases(m.idle), m.active, o).value;
            HeapOk(m.(active := t)) && a !in m.active.mem && t.mem == m.active.mem[a := o] &&
            a + 16 < 0x1_0000_0000_0000
  {
    var s := m.active;
    WalkExact(s);
    PlaceOk(malloc, Bases(m.idle), s, o);
    PlaceExtent(malloc, Bases(m.idle), s, o);
    var (t, a) := Place(malloc, Bases(m.idle), s, o).value;
    ObjectInBounds(t, a);
    hide SpaceOk, Place, Used, ExtentOf, FitStep, Walk;
    SizesFrame(s.mem, t.mem, Walk(s));
    SizesSnoc(t.mem, Walk(s), a);
    FitSnoc(NOTHING, Sizes(s.mem, Walk(s)), o.size);
  }

  // Storing anywhere behind the fields.
  lemma {:induction false} StoreKeeps(m: Mem, a: nat, j: nat, w: Word)
    requires HeapOk(m) && a in m.active.mem && j >= FIRST_ELEM
    ensures HeapOk(StoreWord(m, a, j, w))
  {
    hide SpaceOk, WalkCovers, Fitted;
    if j < |m.active.mem[a].payload| {
      SetWordKeeps(m.active, a, j, w);
    }
  }

  lemma {:induction false} SetWordKeeps(s: Space, a: nat, j: nat, w: Word)
    requires SpaceOk(s) && WalkCovers(s) && Fitted(s) && a in s.mem && j < |s.mem[a].payload|
    ensures var t := SetWord(s, a, j, w); SpaceOk(t) && WalkCovers(t) && Fitted(t)
  {
    var t := SetWord(s, a, j, w);
    hide Parses, WalkChunk, Walk;
    SameWalk(s, t);
    UsedPrefix(s, t, |s.chunks|);
    SizesFrame(s.mem, t.mem, Walk(s));
  }

  // Spaces with the same chunks and sizes are walked alike.
  lemma {:induction false} SameWalk(s: Space, t: Space)
    requires SpaceOk(s) && s.chunks == t.chunks && s.mem.Keys == t.mem.Keys
    requires forall a :: a in s.mem ==> t.mem[a].size == s.mem[a].size
    ensures Walk(t) == Walk(s) && SpaceOk(t)
  {
    hide Parses, WalkChunk;
    WalkToFrame(s, t, |s.chunks|);
  }

  lemma {:induction false} CollectKeeps(malloc: Malloc, m: Mem, marked: set<int>)
    requires HeapOk(m) && AllLive(marked, m.active) && Collect(malloc, m, marked).Some?
    ensures HeapOk(Collect(malloc, m, marked).value.0)
  {
    CollectOk(malloc, m, marked);
    CompactionNeverCostsChunks(malloc, m, marked);
    hide SpaceOk, WalkCovers, Fitted, Collect, Filter, Walk, Images;
    var (m', fwd) := Collect(malloc, m, marked).value;
    forall b | b in m'.active.mem ensures ObjOk(m'.active.mem[b]) {
      var a :| a in fwd && fwd[a] == b;
      CopySize(m.active.mem[a]);
    }
  }

  // ---------- what reads back ----------

  // Two words behind objects have different addresses.
  lemma {:induction false} BehindApart(m: Mem, a: nat, j: nat, b: nat, k: nat)
    requires HeapOk(m) && a in m.active.mem && b in m.active.mem && Reachable(m, a, j) && Reachable(m, b, k)
    requires j >= |m.active.mem[a].payload| && k >= |m.active.mem[b].payload| && WordAddr(a, j) == WordAddr(b, k)
    ensures a == b && j == k
  {
    var s, x := m.active, WordAddr(a, j);
    var d, e := a + s.mem[a].size, b + s.mem[b].size;
    assert ObjOk(s.mem[a]) && ObjOk(s.mem[b]);
    SameChunk(s, d, e, x);
    hide SpaceOk, WalkCovers, Fitted;
    if a < b {
      ObjectsDisjoint(s, a, b);
    } else if b < a {
      ObjectsDisjoint(s, b, a);
    }
  }

  // A word free behind two ends is free behind one and the same.
  lemma {:induction false} SameChunk(s: Space, d: nat, e: nat, x: nat)
    requires SpaceOk(s) && FreeBehind(s, d, x) && FreeBehind(s, e, x) && d <= x && e <= x
    ensures d == e
  {
    hide Parses, Walk;
    var j :| 0 <= j < |s.chunks| && EndsIn(s.chunks[j], d, x);
    var k :| 0 <= k < |s.chunks| && EndsIn(s.chunks[k], e, x);
    assert j < k ==> Apart(s.chunks[j].base, s.chunks[k].base);
    assert k < j ==> Apart(s.chunks[k].base, s.chunks[j].base);
  }

  // A word reads as what was last stored there; storing elsewhere does not matter.
  lemma {:induction false} StoreRead(m: Mem, a: nat, j: nat, w: Word, b: nat, k: nat)
    requires HeapOk(m) && a in m.active.mem && b in m.active.mem && Reachable(m, a, j)
    ensures b in StoreWord(m, a, j, w).active.mem
    ensures Reachable(StoreWord(m, a, j, w), b, k) == Reachable(m, b, k)
    ensures ReadWord(StoreWord(m, a, j, w), b, k) == if a == b && j == k then Some(w) else ReadWord(m, b, k)
  {
    hide HeapOk, FreeBehind, WordAddr;
    var behindA, behindB := j >= |m.active.mem[a].payload|, k >= |m.active.mem[b].payload|;
    assert Reachable(StoreWord(m, a, j, w), b, k) == Reachable(m, b, k) by { StoreReaches(m, a, j, w, b, k); }
    if behindA && behindB && Reachable(m, b, k) && WordAddr(a, j) == WordAddr(b, k) {
      BehindApart(m, a, j, b, k);
    }
  }

  lemma {:induction false} StoreReaches(m: Mem, a: nat, j: nat, w: Word, b: nat, k: nat)
    requires a in m.active.mem && b in m.active.mem
    ensures b in StoreWord(m, a, j, w).active.mem
    ensures Reachable(StoreWord(m, a, j, w), b, k) == Reachable(m, b, k)
  {
    assert StoreWord(m, a, j, w).active.chunks == m.active.chunks;
    FreeFrame(m.active, StoreWord(m, a, j, w).active, b + m.active.mem[b].size, WordAddr(b, k));
    hide FreeBehind;
  }

  lemma {:induction false} FreeFrame(s: Space, t: Space, end: nat, x: nat)
    requires s.chunks == t.chunks
    ensures FreeBehind(s, end, x) == FreeBehind(t, end, x)
  {
  }

  // Does the chunk last taken hold word j of the object at a?
  predicate InChunk(m: Mem, a: nat, j: nat) {
    m.active.chunks != [] && WordAddr(a, j) + 8 <= Last(m.active).base + CHUNK_SIZE
  }

  // Of a new array every word is there, inside the object or, while the chunk lasts, behind it.
  lemma {:induction false} NewArrayWord(malloc: Malloc, stale: Stale, m: Mem, length: nat, elemType: nat, m': Mem,
                                        a: nat, j: nat)
    requires HeapOk(m) && ArraySize(length) <= CHUNK_SIZE && (j <= length || FIELDS <= j < length + 3)
    requires NewArray(malloc, stale, m, length, elemType) == Some((m', a))
    ensures a in m'.active.mem && m'.active.mem[a].kind == ObjArray
    ensures j <= length || InChunk(m', a, j) ==>
              Reachable(m', a, j) && ReadWord(m', a, j) == Some(NewWords(malloc, stale, m, length, elemType)[j])
  {
    hide HeapOk, NewArray, NewWords, ReadWord, Reachable, InChunk;
    NewArrayKeeps(malloc, stale, m, length, elemType);
    NewArrayLast(malloc, stale, m, length, elemType, m', a);
    SpilledWord(m', a, m.loose, NewWords(malloc, stale, m, length, elemType), j);
  }

  // The fields and the elements of a new array.
  lemma {:induction false} NewArrayHolds(malloc: Malloc, stale: Stale, m: Mem, length: nat, elemType: nat, m': Mem,
                                         a: nat, i: nat)
    requires HeapOk(m) && ArraySize(length) <= CHUNK_SIZE
    requires NewArray(malloc, stale, m, length, elemType) == Some((m', a))
    ensures a in m'.active.mem && m'.active.mem[a].kind == ObjArray && FieldsWord(elemType, length) / TWO32 == length
    ensures length >= 2 || InChunk(m', a, FIELDS) ==> ReadWord(m', a, FIELDS) == Some(FieldsWord(elemType, length))
    ensures i < length && (i + 2 < length || InChunk(m', a, FIRST_ELEM + i)) ==>
              ReadWord(m', a, FIRST_ELEM + i) == Some(0)
  {
    hide HeapOk, NewArray, ArraySize, FieldsWord, NewWords, ReadWord, Reachable, InChunk;
    NewWordsAre(malloc, stale, m, length, elemType);
    NewArrayWord(malloc, stale, m, length, elemType, m', a, FIELDS);
    if i < length {
      NewArrayWord(malloc, stale, m, length, elemType, m', a, FIRST_ELEM + i);
    }
  }

  lemma {:induction false} NewWordsAre(malloc: Malloc, stale: Stale, m: Mem, length: nat, elemType: nat)
    requires ArraySize(length) <= CHUNK_SIZE
    ensures var ws := NewWords(malloc, stale, m, length, elemType);
            ws[FIELDS] == FieldsWord(elemType, length) && FieldsWord(elemType, length) / TWO32 == length &&
            forall j :: FIRST_ELEM <= j < length + 3 ==> ws[j] == 0
  {
    hide ArraySize, Content, ArrayWords;
    ArraySizeExact(length);
    var a := Spot(malloc, Bases(m.idle), m.active, ArraySize(length));
    ArrayWordsAre(Content(stale, m.loose, WordAddr(a, 0)), Content(stale, m.loose, WordAddr(a, 1)), length, elemType);
  }

  lemma {:induction false} ArrayWordsAre(w0: Word, w1: Word, length: nat, elemType: nat)
    requires length < TWO32
    ensures var ws := ArrayWords(w0, w1, length, elemType);
            ws[0] == w0 && ws[FIELDS] == FieldsWord(elemType, length) && ws[FIELDS] / TWO32 == length &&
            forall j :: FIRST_ELEM <= j < length + 3 ==> ws[j] == 0
  {
    FieldsBack(elemType, length);
    hide FieldsWord;
  }

  lemma {:induction false} NewArrayLast(malloc: Malloc, stale: Stale, m: Mem, length: nat, elemType: nat, m': Mem,
                                        a: nat)
    requires NewArray(malloc, stale, m, length, elemType) == Some((m', a))
    ensures m'.active.chunks != [] && Last(m'.active).base <= a
    ensures Last(m'.active).base + Last(m'.active).used == a + ArraySize(length)
  {
    hide ArraySize, ArrayWords, NewWords;
  }

  lemma {:induction false} SpilledWord(m: Mem, a: nat, loose: map<nat, Word>, ws: seq<Word>, j: nat)
    requires j < |ws| && |ws| >= 3 && a in m.active.mem && m.active.mem[a] == NewObj(ws) &&
             m.loose == Spill(loose, a, ws)
    requires m.active.chunks != [] && Last(m.active).base <= a
    requires Last(m.active).base + Last(m.active).used == a + ArraySize(|ws| - 3)
    requires j < |ws| - 2 || j >= FIELDS
    ensures j < |ws| - 2 || InChunk(m, a, j) ==> Reachable(m, a, j) && ReadWord(m, a, j) == Some(ws[j])
  {
    ArraySizeExact(|ws| - 3);
    hide ArraySize;
    if j >= |ws| - 2 && InChunk(m, a, j) {
      LastIsFree(m.active, a + ArraySize(|ws| - 3), WordAddr(a, j));
    }
  }

  lemma {:induction false} LastIsFree(s: Space, end: nat, x: nat)
    requires s.chunks != [] && Last(s).base < end == Last(s).base + Last(s).used && x + 8 <= Last(s).base + CHUNK_SIZE
    ensures FreeBehind(s, end, x)
  {
    var k := |s.chunks| - 1;
    assert EndsIn(s.chunks[k], end, x);
  }

  // ---------- every sequence of heap operations ----------

  datatype HeapOp =
    | OpNew(length: nat, elemType: nat)
    | OpStore(a: nat, j: nat, w: Word)
    | OpCollect(marked: set<int>)

  // Operations outside the source's reach (oversized object, access to another object or past the
  // chunk, something marked that is no object, no memory) stop the run.
  function ApplyOp(malloc: Malloc, stale: Stale, m: Mem, op: HeapOp): Option<Mem> {
    match op
    case OpNew(length, elemType) =>
      if ArraySize(length) > CHUNK_SIZE then None
      else
        var r := NewArray(malloc, stale, m, length, elemType);
        if r.None? then None else Some(r.value.0)
    case OpStore(a, j, w) =>
      if a in m.active.mem && m.active.mem[a].kind == ObjArray && j >= FIRST_ELEM && Reachable(m, a, j) then
        Some(StoreWord(m, a, j, w))
      else None
    case OpCollect(marked) =>
      if exists a :: a in marked && a !in m.active.mem then None
      else
        var r := Collect(malloc, m, marked);
        if r.None? then None else Some(r.value.0)
  }

  lemma {:induction false} ApplyOpKeeps(malloc: Malloc, stale: Stale, m: Mem, op: HeapOp)
    requires HeapOk(m) && ApplyOp(malloc, stale, m, op).Some?
    ensures HeapOk(ApplyOp(malloc, stale, m, op).value)
  {
    hide HeapOk, NewArray, StoreWord, Collect;
    match op
    case OpNew(length, elemType) => NewArrayKeeps(malloc, stale, m, length, elemType);
    case OpStore(a, j, w) => StoreKeeps(m, a, j, w);
    case OpCollect(marked) => CollectKeeps(malloc, m, marked);
  }

  // The heap after k operations of a run from m; ms lists the heaps after each of them.
  function HeapAt(m: Mem, ms: seq<Mem>, k: nat): Mem
    requires k <= |ms|
  {
    if k == 0 then m else ms[k - 1]
  }

  ghost predicate HeapRun(malloc: Malloc, stale: Stale, m: Mem, ops: seq<HeapOp>, ms: seq<Mem>) {
    |ms| == |ops| && forall k :: 0 <= k < |ops| ==> ApplyOp(malloc, stale, HeapAt(m, ms, k), ops[k]) == Some(ms[k])
  }

  // The invariant holds in every heap of every run of allocations, stores and collections.
  lemma {:induction false} HeapInvariant(malloc: Malloc, stale: Stale, m: Mem, ops: seq<HeapOp>, ms: seq<Mem>, k: nat)
    requires HeapOk(m) && HeapRun(malloc, stale, m, ops, ms) && k <= |ms|
    ensures HeapOk(HeapAt(m, ms, k))
  {
    hide HeapOk, ApplyOp;
    if k > 0 {
      HeapInvariant(malloc, stale, m, ops, ms, k - 1);
      ApplyOpKeeps(malloc, stale, HeapAt(m, ms, k - 1), ops[k - 1]);
    }
  }

  // One run after another is a run.
  lemma {:induction false} RunsJoin(malloc: Malloc, stale: Stale, m: Mem, ops: seq<HeapOp>, ms: seq<Mem>,
                                    ops': seq<HeapOp>, ms': seq<Mem>)
    requires HeapRun(malloc, stale, m, ops, ms) && HeapRun(malloc, stale, HeapAt(m, ms, |ms|), ops', ms')
    ensures HeapRun(malloc, stale, m, ops + ops', ms + ms')
    ensures HeapAt(m, ms + ms', |ms + ms'|) == HeapAt(HeapAt(m, ms, |ms|), ms', |ms'|)
  {
    hide ApplyOp;
    var all, heaps := ops + ops', ms + ms';
    forall k | 0 <= k < |all| ensures ApplyOp(malloc, stale, HeapAt(m, heaps, k), all[k]) == Some(heaps[k]) {
      if k < |ops| {
        assert HeapAt(m, heaps, k) == HeapAt(m, ms, k);
      } else {
        assert HeapAt(m, heaps, k) == HeapAt(HeapAt(m, ms, |ms|), ms', k - |ops|);
      }
    }
  }
}
