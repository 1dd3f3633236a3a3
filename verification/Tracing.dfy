// Which arrays the collector traces.  It does not look at the type an array was made with: it
// tests the first payload word, which making an array leaves as memory held it
// (src/vm/Heap.cpp:95-106, 152-159).
module Tracing {
  import opened Words
  import opened Wrappers
  import opened Space
  import opened Collector
  import opened HeapOps

  // A new array is traced exactly when the word already standing there reads as the pointer tag,
  // whatever its element type, and then as far as that word's high half says.
  lemma {:induction false} NewArrayTraced(malloc: Malloc, stale: Stale, m: Mem, length: nat, elemType: nat, m': Mem,
                                          a: nat)
    requires HeapOk(m) && ArraySize(length) <= CHUNK_SIZE
    requires NewArray(malloc, stale, m, length, elemType) == Some((m', a))
    ensures a in m'.active.mem
    ensures var w := Content(stale, m.loose, WordAddr(a, 0));
            (Traced(m'.active.mem[a]) <==> w % TWO32 == TAG_POINTER) &&
            (Overruns(m'.active.mem[a]) <==> w % TWO32 == TAG_POINTER && w / TWO32 > length)
  {
    NewArrayKeeps(malloc, stale, m, length, elemType);
    FirstWord(malloc, stale, m, length, elemType, m', a);
    NewObjOk(NewWords(malloc, stale, m, length, elemType)[0], NewWords(malloc, stale, m, length, elemType)[1], length,
             elemType);
    hide HeapOk, NewArray, Content, ArraySize, NewWords, NewObj;
    var ws := NewWords(malloc, stale, m, length, elemType);
    assert ws == ArrayWords(ws[0], ws[1], length, elemType) by { WordsAgain(malloc, stale, m, length, elemType); }
  }

  lemma {:induction false} WordsAgain(malloc: Malloc, stale: Stale, m: Mem, length: nat, elemType: nat)
    ensures var ws := NewWords(malloc, stale, m, length, elemType); ws == ArrayWords(ws[0], ws[1], length, elemType)
  {
    hide Content, FieldsWord;
  }

  lemma {:induction false} FirstWord(malloc: Malloc, stale: Stale, m: Mem, length: nat, elemType: nat, m': Mem, a: nat)
    requires NewArray(malloc, stale, m, length, elemType) == Some((m', a))
    ensures NewWords(malloc, stale, m, length, elemType)[0] == Content(stale, m.loose, WordAddr(a, 0))
  {
    var ws := NewWords(malloc, stale, m, length, elemType);
    SpotIsPlace(malloc, Bases(m.idle), m.active, NewObj(ws));
    hide Place, Spot, Content, FieldsWord, ArraySize;
  }

  // ---------- where nothing is traced ----------

  // Handed-out memory nowhere reads as the pointer tag; zeroed memory does not.
  ghost predicate Untagged(stale: Stale) {
    forall x :: stale(x) % TWO32 != TAG_POINTER
  }

  // What lies behind objects is only what making arrays left there: at most two words.
  ghost predicate TightLoose(m: Mem) {
    forall x :: x in m.loose ==> exists a :: Spilled(m, a, x)
  }

  ghost predicate Spilled(m: Mem, a: nat, x: nat) {
    a in m.active.mem && (x == a + m.active.mem[a].size || x == a + m.active.mem[a].size + 8)
  }

  // Then the first payload word of the next array is as the chunk was handed out.
  lemma {:induction false} TraceWordFresh(malloc: Malloc, stale: Stale, m: Mem, length: nat, elemType: nat, m': Mem,
                                          a: nat)
    requires HeapOk(m) && TightLoose(m) && ArraySize(length) <= CHUNK_SIZE
    requires NewArray(malloc, stale, m, length, elemType) == Some((m', a))
    ensures Content(stale, m.loose, WordAddr(a, 0)) == stale(WordAddr(a, 0))
  {
    NewArrayKeeps(malloc, stale, m, length, elemType);
    NewArrayLast(malloc, stale, m, length, elemType, m', a);
    NewSize(malloc, stale, m, length, elemType, m', a);
    hide HeapOk, NewArray, NewObj, NewWords, ArraySize, Spill;
    if WordAddr(a, 0) in m.loose {
      var b :| Spilled(m, b, WordAddr(a, 0));
      EndApart(m', a, b);
    }
  }

  lemma {:induction false} NewSize(malloc: Malloc, stale: Stale, m: Mem, length: nat, elemType: nat, m': Mem, a: nat)
    requires HeapOk(m) && ArraySize(length) <= CHUNK_SIZE
    requires NewArray(malloc, stale, m, length, elemType) == Some((m', a))
    ensures HeapOk(m') && a in m'.active.mem && m'.active.mem[a].size == ArraySize(length) >= 24
  {
    NewArrayKeeps(malloc, stale, m, length, elemType);
    ArraySizeExact(length);
    hide HeapOk, NewArray, NewWords, ArraySize, Spill;
  }

  // No object ends one or two words behind another's start.
  lemma {:induction false} EndApart(m: Mem, a: nat, b: nat)
    requires HeapOk(m) && a in m.active.mem && b in m.active.mem && a != b && m.active.mem[a].size >= 24
    ensures b + m.active.mem[b].size != a + 16 && b + m.active.mem[b].size != a + 8
  {
    assert ObjOk(m.active.mem[b]);
    hide SpaceOk, WalkCovers, Fitted;
    if a < b {
      ObjectsDisjoint(m.active, a, b);
    } else {
      ObjectsDisjoint(m.active, b, a);
    }
  }

  lemma {:induction false} TightAfterNew(malloc: Malloc, stale: Stale, m: Mem, length: nat, elemType: nat, m': Mem,
                                         a: nat)
    requires HeapOk(m) && TightLoose(m) && ArraySize(length) <= CHUNK_SIZE
    requires NewArray(malloc, stale, m, length, elemType) == Some((m', a))
    ensures TightLoose(m')
  {
    hide NewArray, HeapOk, ArraySize, NewWords;
    NewArrayKeeps(malloc, stale, m, length, elemType);
    NewSize(malloc, stale, m, length, elemType, m', a);
    ArraySizeExact(length);
    SpillKeys(m.loose, a, NewWords(malloc, stale, m, length, elemType));
    hide HeapOk, NewArray, NewObj, NewWords, ArraySize, Spill;
    forall x | x in m'.loose ensures exists b :: Spilled(m', b, x) {
      if x in m.loose {
        var b :| Spilled(m, b, x);
        assert Spilled(m', b, x);
      } else {
        assert Spilled(m', a, x);
      }
    }
  }

  lemma {:induction false} SpillKeys(loose: map<nat, Word>, a: nat, ws: seq<Word>)
    requires |ws| >= 3
    ensures forall x :: x in Spill(loose, a, ws) ==>
              x in loose || x == WordAddr(a, |ws| - 2) || x == WordAddr(a, |ws| - 1)
  {
  }

  lemma {:induction false} TightAfterStore(m: Mem, a: nat, j: nat, w: Word)
    requires TightLoose(m) && a in m.active.mem && j < |m.active.mem[a].payload|
    ensures TightLoose(StoreWord(m, a, j, w))
  {
    forall x | x in m.loose ensures exists b :: Spilled(StoreWord(m, a, j, w), b, x) {
      var b :| Spilled(m, b, x);
      assert Spilled(StoreWord(m, a, j, w), b, x);
    }
  }

  // ---------- whole runs ----------

  ghost predicate NoneTraced(m: Mem) {
    forall a :: a in m.active.mem ==> !Traced(m.active.mem[a])
  }

  // Stores stay inside their objects.
  predicate Confined(m: Mem, op: HeapOp) {
    op.OpStore? && op.a in m.active.mem ==> op.j < |m.active.mem[op.a].payload|
  }

  lemma {:induction false} OpTracesNone(malloc: Malloc, stale: Stale, m: Mem, op: HeapOp)
    requires HeapOk(m) && TightLoose(m) && NoneTraced(m) && Untagged(stale) && Confined(m, op)
    requires ApplyOp(malloc, stale, m, op).Some?
    ensures TightLoose(ApplyOp(malloc, stale, m, op).value) && NoneTraced(ApplyOp(malloc, stale, m, op).value)
  {
    hide HeapOk, NewArray, Collect, Content, TightLoose, Traced, Untagged;
    match op
    case OpNew(length, elemType) =>
      var (m', a) := NewArray(malloc, stale, m, length, elemType).value;
      NewTracesNone(malloc, stale, m, length, elemType, m', a);
      TightAfterNew(malloc, stale, m, length, elemType, m', a);
    case OpStore(a, j, w) =>
      TightAfterStore(m, a, j, w);
      StoreTracesNone(m, a, j, w);
    case OpCollect(marked) => CollectTracesNone(malloc, m, marked);
  }

  lemma {:induction false} NewTracesNone(malloc: Malloc, stale: Stale, m: Mem, length: nat, elemType: nat, m': Mem,
                                         a: nat)
    requires HeapOk(m) && TightLoose(m) && NoneTraced(m) && Untagged(stale) && ArraySize(length) <= CHUNK_SIZE
    requires NewArray(malloc, stale, m, length, elemType) == Some((m', a))
    ensures NoneTraced(m')
  {
    NewArrayKeeps(malloc, stale, m, length, elemType);
    NewArrayTraced(malloc, stale, m, length, elemType, m', a);
    TraceWordFresh(malloc, stale, m, length, elemType, m', a);
    assert stale(WordAddr(a, 0)) % TWO32 != TAG_POINTER;
    hide HeapOk, NewArray, NewObj, NewWords, ArraySize, Content, TightLoose, Traced, Spill;
  }

  lemma {:induction false} StoreTracesNone(m: Mem, a: nat, j: nat, w: Word)
    requires NoneTraced(m) && a in m.active.mem && FIRST_ELEM <= j
    ensures NoneTraced(StoreWord(m, a, j, w))
  {
  }

  lemma {:induction false} CollectTracesNone(malloc: Malloc, m: Mem, marked: set<int>)
    requires HeapOk(m) && NoneTraced(m) && AllLive(marked, m.active) && Collect(malloc, m, marked).Some?
    ensures var m' := Collect(malloc, m, marked).value.0; NoneTraced(m') && TightLoose(m')
  {
    CollectOk(malloc, m, marked);
    var (m', fwd) := Collect(malloc, m, marked).value;
    assert m'.loose == map[];
    hide HeapOk, Collect, SpaceOk, Walk, Filter, Images;
    forall b | b in m'.active.mem ensures !Traced(m'.active.mem[b]) {
      var a :| a in fwd && fwd[a] == b;
    }
  }

  // In untagged memory, as long as stores stay inside their objects, no array is ever traced,
  // whatever types arrays are made with: marking marks exactly what registers and stack name.
  lemma {:induction false} NothingEverTraced(malloc: Malloc, stale: Stale, m: Mem, ops: seq<HeapOp>, ms: seq<Mem>,
                                             k: nat, roots: seq<Word>)
    requires HeapOk(m) && TightLoose(m) && NoneTraced(m) && Untagged(stale)
    requires HeapRun(malloc, stale, m, ops, ms) && k <= |ms|
    requires forall i :: 0 <= i < k ==> Confined(HeapAt(m, ms, i), ops[i])
    ensures var h := HeapAt(m, ms, k); NoneTraced(h) && TightLoose(h) && Marked(roots, h.active) == Named(roots)
  {
    hide HeapOk, NoneTraced, TightLoose, ApplyOp, Untagged, Marked, Named;
    if k > 0 {
      NothingEverTraced(malloc, stale, m, ops, ms, k - 1, roots);
      HeapInvariant(malloc, stale, m, ops, ms, k - 1);
      assert Confined(HeapAt(m, ms, k - 1), ops[k - 1]);
      OpTracesNone(malloc, stale, HeapAt(m, ms, k - 1), ops[k - 1]);
    }
    NoneTracedMarks(HeapAt(m, ms, k), roots);
  }

  lemma {:induction false} NoHeapTracesNone()
    ensures NoneTraced(NO_HEAP) && TightLoose(NO_HEAP)
  {
  }

  lemma {:induction false} NoneTracedMarks(m: Mem, roots: seq<Word>)
    requires NoneTraced(m)
    ensures Marked(roots, m.active) == Named(roots)
  {
    NothingTraced(roots, m.active);
  }
}
