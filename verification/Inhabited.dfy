// Concrete heaps: one that a collection moves, so that the collector's theorems speak about
// something; one whose array comes through with a dangling element, traced or not; arrays that the
// collector traces or not against the type they were made with; and two neighbours of which one's
// elements are the other's header and trace word.
module Inhabited {
  import opened Words
  import opened Wrappers
  import opened Space
  import opened Collector
  import opened HeapOps
  import opened Tracing
  import opened Memory
  import opened Pictures

  const FIRST: nat := 4194304
  const SECOND: nat := 8388608

  predicate FreeAt(live: set<nat>, b: nat) {
    forall c :: c in live ==> Apart(b, c)
  }

  // Hands out the first of two chunks that is free.
  function TwoChunks(): Malloc {
    (live: set<nat>) => if FreeAt(live, FIRST) then Some(FIRST) else if FreeAt(live, SECOND) then Some(SECOND) else None
  }

  // Memory that holds w where the trace word of the first array will be, and zeros.
  function Holding(w: Word): Stale {
    (x: nat) => if x == WordAddr(FIRST, 0) then w else 0
  }

  lemma {:induction false} EmptyPlace(malloc: Malloc, others: set<nat>, o: Obj, b: nat)
    requires malloc(others) == Some(b)
    ensures Place(malloc, others, EMPTY, o) == Some((Space([Chunk(b, o.size)], map[b := o]), b))
  {
    assert others + Bases(EMPTY) == others;
    assert EMPTY.chunks + [Chunk(b, 0)] == [Chunk(b, 0)];
    var r := Reserve(malloc, others, EMPTY, o.size).value;
    assert r.chunks[|r.chunks| - 1 := Chunk(b, o.size)] == [Chunk(b, o.size)];
    assert r.mem[b := o] == map[b := o];
  }

  // A heap holding one object.
  function One(o: Obj, loose: map<nat, Word>): Mem {
    Mem(Space([Chunk(FIRST, o.size)], map[FIRST := o]), EMPTY, loose)
  }

  // The words of the first array made in such memory, and the heap it makes.
  function FirstWords(w: Word, length: nat, elemType: nat): (r: seq<Word>)
    ensures |r| == length + 3
  {
    ArrayWords(w, 0, length, elemType)
  }

  function FirstHeap(w: Word, length: nat, elemType: nat): Mem {
    var ws := FirstWords(w, length, elemType);
    One(NewObj(ws), Spill(map[], FIRST, ws))
  }

  lemma {:induction false} NewOne(w: Word, length: nat, elemType: nat)
    requires ArraySize(length) <= CHUNK_SIZE
    ensures NewArray(TwoChunks(), Holding(w), NO_HEAP, length, elemType) ==
            Some((FirstHeap(w, length, elemType), FIRST))
    ensures HeapOk(FirstHeap(w, length, elemType))
  {
    hide HeapOk, Place, NewObj, ArrayWords, ArraySize, Spill;
    assert FreeAt({}, FIRST);
    EmptyHeapOk();
    assert Bases(EMPTY) == {};
    var ws := FirstWords(w, length, elemType);
    EmptyPlace(TwoChunks(), {}, NewObj(ws), FIRST);
    NewObjSize(ws);
    FirstSpot(ArraySize(length));
    assert NewWords(TwoChunks(), Holding(w), NO_HEAP, length, elemType) == ws;
    NewArrayKeeps(TwoChunks(), Holding(w), NO_HEAP, length, elemType);
  }

  lemma {:induction false} FirstSpot(size: nat)
    ensures Spot(TwoChunks(), Bases(EMPTY), EMPTY, size) == FIRST
  {
    assert FreeAt({}, FIRST);
    assert Bases(EMPTY) + Bases(EMPTY) == {};
  }

  lemma {:induction false} NewObjSize(ws: seq<Word>)
    requires |ws| >= 3
    ensures NewObj(ws).size == ArraySize(|ws| - 3)
  {
  }

  lemma {:induction false} OneWalk(o: Obj, loose: map<nat, Word>)
    requires o.size > 0
    ensures Walk(One(o, loose).active) == [FIRST] && Bases(One(o, loose).active) == {FIRST}
  {
    var s := One(o, loose).active;
    assert WalkChunk(s.mem, FIRST, 0, o.size) == [FIRST] + WalkChunk(s.mem, FIRST, o.size, o.size);
    assert WalkTo(s, 0) == [] && WalkTo(s, 1) == [] + [FIRST];
    assert s.chunks[0].base == FIRST;
  }

  // What tracing finds in the object, if it is traced, names nothing but the object.
  predicate SelfNaming(o: Obj) {
    forall i :: 0 <= i < |Scanned(o)| && IsPointer(Scanned(o)[i]) ==> HeaderOf(Scanned(o)[i]) == FIRST
  }

  lemma {:induction false} OneMarked(o: Obj, loose: map<nat, Word>)
    requires SelfNaming(o)
    ensures Marked([PointerTo(FIRST)], One(o, loose).active) == {FIRST}
  {
    PointerRoundTrip(FIRST);
    var ws := [PointerTo(FIRST)];
    assert IsPointer(ws[0]) && HeaderOf(ws[0]) == FIRST;
    hide IsPointer, HeaderOf, PointerTo, Scanned;
    assert Named(ws) == {FIRST};
    assert ElementNamed(One(o, loose).active) <= {FIRST};
  }

  lemma {:induction false} OneEvacuates(from: Space, to: Space)
    requires from.mem.Keys == {FIRST} &&
             Place(TwoChunks(), Bases(from), EMPTY, Copy(from.mem[FIRST])) == Some((to, SECOND))
    ensures Evacuate(TwoChunks(), from, {FIRST}, [FIRST], EMPTY) == Some((to, map[FIRST := SECOND]))
  {
    hide Place, Copy;
    assert [FIRST][..0] == [];
    assert Evacuate(TwoChunks(), from, {FIRST}, [], EMPTY) == Some((EMPTY, map[]));
  }

  // A collection with the object as its only root moves it to the other chunk.
  lemma {:induction false} OneCollected(o: Obj, loose: map<nat, Word>)
    requires o.size > 0 && SelfNaming(o)
    ensures RootsLive([PointerTo(FIRST)], One(o, loose).active)
    ensures var r := Collect(TwoChunks(), One(o, loose), Marked([PointerTo(FIRST)], One(o, loose).active));
            r.Some? && r.value.0.active.mem == map[SECOND := Copy(o)] && r.value.1 == map[FIRST := SECOND]
  {
    hide Place, IsPointer, HeaderOf, Walk, Marked, Copy, PointerTo, Traced, SelfNaming;
    var s := One(o, loose).active;
    OneWalk(o, loose);
    OneMarked(o, loose);
    assert !FreeAt({FIRST}, FIRST) && FreeAt({FIRST}, SECOND);
    EmptyPlace(TwoChunks(), {FIRST}, Copy(o), SECOND);
    OneEvacuates(s, Space([Chunk(SECOND, Copy(o).size)], map[SECOND := Copy(o)]));
  }

  // One root, one array, zeroed memory: the collection happens, and the root names the array
  // elsewhere.
  lemma {:induction false} CollectionMoves()
    ensures var m, w := FirstHeap(0, 1, 0), PointerTo(FIRST);
            HeapOk(m) && RootsLive([w], m.active) && IsPointer(w) && HeaderOf(w) in m.active.mem
    ensures var m, w := FirstHeap(0, 1, 0), PointerTo(FIRST);
            var r := Collect(TwoChunks(), m, Marked([w], m.active));
            r.Some? && r.value.1 == map[FIRST := SECOND] && Patch(r.value.1, w) == PointerTo(SECOND) != w
  {
    hide HeapOk, NewArray, IsPointer, HeaderOf, PointerTo, Marked, Collect, ArraySize, RootsLive, NewObj, Traced, Spill,
      ArrayWords, SelfNaming;
    ArraySizeExact(1);
    NewOne(0, 1, 0);
    FirstObj(0, 1, 0);
    OneCollected(NewObj(FirstWords(0, 1, 0)), Spill(map[], FIRST, FirstWords(0, 1, 0)));
    PointerRoundTrip(FIRST);
    PointerRoundTrip(SECOND);
  }

  // The first array is traced exactly when w reads as the pointer tag.
  lemma {:induction false} FirstObj(w: Word, length: nat, elemType: nat)
    requires ArraySize(length) <= CHUNK_SIZE
    ensures var o := NewObj(FirstWords(w, length, elemType));
            o.size == ArraySize(length) > 0 && o.kind == ObjArray && (Traced(o) <==> w % TWO32 == TAG_POINTER) &&
            (Overruns(o) <==> w % TWO32 == TAG_POINTER && w / TWO32 > length) &&
            (w % TWO32 != TAG_POINTER ==> SelfNaming(o))
  {
    ArraySizeExact(length);
    NewObjOk(w, 0, length, elemType);
    hide ArraySize, NewObj, ArrayWords, IsPointer, HeaderOf;
  }

  // ---------- the type an array is made with ----------

  // Made with the pointer type in zeroed memory, an array is not traced.
  lemma {:induction false} PointerArrayUntraced(length: nat)
    requires ArraySize(length) <= CHUNK_SIZE
    ensures var m := FirstHeap(0, length, TAG_POINTER);
            NewArray(TwoChunks(), Holding(0), NO_HEAP, length, TAG_POINTER) == Some((m, FIRST)) &&
            FIRST in m.active.mem && !Traced(m.active.mem[FIRST])
  {
    hide NewArray, HeapOk, ArraySize, NewObj, FirstWords, Spill, Traced, SelfNaming;
    NewOne(0, length, TAG_POINTER);
    FirstObj(0, length, TAG_POINTER);
  }

  // Made with the int type where memory held the int 2, an array of any length is traced, far past
  // its end.
  lemma {:induction false} IntArrayTraced(length: nat)
    requires ArraySize(length) <= CHUNK_SIZE
    ensures var w, m := EncodeInt(2), FirstHeap(EncodeInt(2), length, TAG_INT48);
            NewArray(TwoChunks(), Holding(w), NO_HEAP, length, TAG_INT48) == Some((m, FIRST)) &&
            FIRST in m.active.mem && Traced(m.active.mem[FIRST]) && Overruns(m.active.mem[FIRST]) &&
            w / TWO32 == 0x7FF1_0000 > CHUNK_SIZE
  {
    hide NewArray, HeapOk, ArraySize, NewObj, FirstWords, Spill, Traced, Overruns, SelfNaming, EncodeInt;
    EncodedTwo();
    ArraySizeExact(length);
    NewOne(EncodeInt(2), length, TAG_INT48);
    FirstObj(EncodeInt(2), length, TAG_INT48);
  }

  lemma {:induction false} EncodedTwo()
    ensures EncodeInt(2) == 0x7FF1_0000_0000_0002
  {
  }

  // ---------- a dangling element ----------

  // An array of three elements made in memory that held w, its first element pointing to the array
  // itself.
  function Knot(w: Word): Obj {
    NewObj(FirstWords(w, 3, TAG_POINTER)[FIRST_ELEM := PointerTo(FIRST)])
  }

  function KnotHeap(w: Word): Mem {
    One(Knot(w), Spill(map[], FIRST, FirstWords(w, 3, TAG_POINTER)))
  }

  lemma {:induction false} KnotFacts(w: Word)
    ensures var o := Knot(w);
            o.kind == ObjArray && o.size == ArraySize(3) && GoodSize(o.size) && !o.marked && o.forwarded == 0 &&
            o.payload == [w, 0, FieldsWord(TAG_POINTER, 3), PointerTo(FIRST)] &&
            (Traced(o) <==> w % TWO32 == TAG_POINTER)
    ensures var b := NewObj(FirstWords(w, 3, TAG_POINTER));
            |b.payload| == 4 && b.(payload := b.payload[FIRST_ELEM := PointerTo(FIRST)]) == Knot(w) &&
            b.kind == ObjArray
  {
    ArraySizeExact(3);
    hide ArraySize, PointerTo, FieldsWord;
    assert ZeroWords(3) == [0, 0, 0];
  }

  // Two heap operations make it from the empty heap.
  lemma {:induction false} KnotMade(w: Word)
    ensures HeapOk(NO_HEAP) && HeapOk(FirstHeap(w, 3, TAG_POINTER)) && HeapOk(KnotHeap(w))
    ensures ApplyOp(TwoChunks(), Holding(w), NO_HEAP, OpNew(3, TAG_POINTER)) == Some(FirstHeap(w, 3, TAG_POINTER))
    ensures ApplyOp(TwoChunks(), Holding(w), FirstHeap(w, 3, TAG_POINTER),
                    OpStore(FIRST, FIRST_ELEM, PointerTo(FIRST))) == Some(KnotHeap(w))
  {
    ArraySizeExact(3);
    KnotFacts(w);
    EmptyHeapOk();
    hide HeapOk, NewArray, PointerTo, ArraySize, NewObj, Knot, FirstWords, Spill, FreeBehind;
    NewOne(w, 3, TAG_POINTER);
    OneStored(NewObj(FirstWords(w, 3, TAG_POINTER)), Spill(map[], FIRST, FirstWords(w, 3, TAG_POINTER)), FIRST_ELEM,
              PointerTo(FIRST));
    StoreKeeps(FirstHeap(w, 3, TAG_POINTER), FIRST, FIRST_ELEM, PointerTo(FIRST));
  }

  lemma {:induction false} OneStored(o: Obj, loose: map<nat, Word>, j: nat, w: Word)
    requires j < |o.payload|
    ensures FIRST in One(o, loose).active.mem && One(o, loose).active.mem[FIRST] == o
    ensures StoreWord(One(o, loose), FIRST, j, w) == One(o.(payload := o.payload[j := w]), loose)
  {
    var p := o.(payload := o.payload[j := w]);
    assert map[FIRST := o][FIRST := p] == map[FIRST := p];
  }

  // A collection keeps the array, its element still points to where the array was, and nothing is
  // there: traced or not.
  lemma {:induction false} KnotDangles(w: Word)
    requires w % TWO32 == TAG_POINTER ==> w / TWO32 <= 3
    ensures Traced(Knot(w)) <==> w % TWO32 == TAG_POINTER
    ensures RootsLive([PointerTo(FIRST)], KnotHeap(w).active)
    ensures var r := Collect(TwoChunks(), KnotHeap(w), Marked([PointerTo(FIRST)], KnotHeap(w).active));
            r.Some? && SECOND in r.value.0.active.mem && |r.value.0.active.mem[SECOND].payload| > FIRST_ELEM &&
            var e := r.value.0.active.mem[SECOND].payload[FIRST_ELEM];
            e == PointerTo(FIRST) && IsPointer(e) && HeaderOf(e) in KnotHeap(w).active.mem &&
            HeaderOf(e) !in r.value.0.active.mem
  {
    KnotFacts(w);
    PointerRoundTrip(FIRST);
    KnotNamesItself(w);
    hide IsPointer, HeaderOf, PointerTo, Marked, Collect, ArraySize, NewObj, Traced, Knot, Spill, FirstWords,
      SelfNaming;
    OneCollected(Knot(w), Spill(map[], FIRST, FirstWords(w, 3, TAG_POINTER)));
  }

  lemma {:induction false} KnotNamesItself(w: Word)
    ensures SelfNaming(Knot(w))
  {
    KnotFacts(w);
    PointerRoundTrip(FIRST);
    FieldsPlain();
    SmallWordsAreDoubles(0);
    hide ArraySize, PointerTo, FieldsWord, HeaderOf, IsPointer, Knot, Traced;
    var o := Knot(w);
    forall i | 0 <= i < |Scanned(o)| && IsPointer(Scanned(o)[i]) ensures HeaderOf(Scanned(o)[i]) == FIRST {
      assert Scanned(o)[i] == o.payload[1 + i];
    }
  }

  lemma {:induction false} FieldsPlain()
    ensures !IsPointer(FieldsWord(TAG_POINTER, 3))
  {
    SmallWordsAreDoubles(FieldsWord(TAG_POINTER, 3));
  }

  // ---------- elements that are the neighbour's header and trace word ----------

  // Two arrays of two elements made one after the other, on any memory: element 0 of the first was
  // zeroed, and reads as the second one's header once that is made; storing zero there again leaves
  // the second one without a size.  Index 2 of the first, which the bound check lets pass, is the
  // second one's trace word: storing the int 2 there makes it traced.
  lemma {:induction false} ElementIsNextHeader(ram: Ram)
    ensures var end, w := FIRST + ArraySize(2), EncodeInt(2);
            var one := Initialised(ram, FIRST, 2, 0);
            var two := Initialised(one, end, 2, 0);
            ElemAddr(FIRST, 0) == end && one(end) == 0 && two(end) == HeaderWord(ArraySize(2), ObjArray, false) != 0 &&
            Store(two, ElemAddr(FIRST, 0), 0)(end) == 0 &&
            ElemAddr(FIRST, 2) == TraceAddr(end) &&
            (SourceTraces(two, end) <==> ram(TraceAddr(end)) % TWO32 == TAG_POINTER) &&
            SourceTraces(Store(two, ElemAddr(FIRST, 2), w), end)
  {
    ArraySizeExact(2);
    EncodedTwo();
    var end := FIRST + ArraySize(2);
    var one := Initialised(ram, FIRST, 2, 0);
    var two := Initialised(one, end, 2, 0);
    HeaderKind(ArraySize(2), ObjArray, false);
    hide HeaderWord, ArraySize, EncodeInt;
    ZeroBehind(ram, FIRST, 2, 0);
    assert one(TraceAddr(end)) == InitialWord(ram, FIRST, 2, 0, TraceAddr(end));
    assert two(end) == InitialWord(one, end, 2, 0, end) &&
           two(TraceAddr(end)) == InitialWord(one, end, 2, 0, TraceAddr(end));
  }
}
