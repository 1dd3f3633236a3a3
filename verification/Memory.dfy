// The memory under the heap: the records, and the words stored behind objects, are what the
// source's stores leave in memory; what an array access reaches; and what the collector, which
// only sees memory, traces (src/vm/Heap.cpp:85-169).
module Memory {
  import opened Words
  import opened Wrappers
  import opened Space
  import opened Collector
  import opened HeapOps

  // The 64-bit word at each address; a word holding two 32-bit fields counts as one.
  type Ram = nat -> nat

  // hdr->size, type and flags, from the low end.
  function HeaderWord(size: nat, kind: Kind, marked: bool): nat {
    size + (if kind == ObjArray then TWO32 else 0) + if marked then 0x1_0000_0000_0000 else 0
  }

  function ElemAddr(a: nat, i: nat): nat {
    WordAddr(a, FIRST_ELEM + i)
  }

  function FieldsAddr(a: nat): nat {
    WordAddr(a, FIELDS)
  }

  // Where markObjects looks for element type and length.
  function TraceAddr(a: nat): nat {
    WordAddr(a, 0)
  }

  function Store(ram: Ram, x: nat, w: nat): Ram {
    (y: nat) => if y == x then w else ram(y)
  }

  // ---------- which bytes lie inside ----------

  // An element lies inside the object exactly when it is none of the last two; type and length
  // exactly when there are two elements; zeroing ends two words behind the object; and the index
  // equal to the length, which the bound check lets pass, is the trace word of an object there.
  lemma {:induction false} ElementInside(a: nat, length: nat, i: nat)
    ensures ElemAddr(a, i) + 8 <= a + ArraySize(length) <==> i + 2 < length
    ensures FieldsAddr(a) + 8 <= a + ArraySize(length) <==> length >= 2
    ensures ElemAddr(a, length) == a + ArraySize(length) + 16 == TraceAddr(a + ArraySize(length))
  {
    ArraySizeExact(length);
  }

  // ---------- what memory holds ----------

  // The words of the object at a are those of the record.
  ghost predicate Stored(ram: Ram, a: nat, o: Obj) {
    ram(a) == HeaderWord(o.size, o.kind, o.marked) && ram(a + 8) == o.forwarded &&
    forall k :: 0 <= k < |o.payload| ==> ram(WordAddr(a, k)) == o.payload[k]
  }

  ghost predicate Recorded(ram: Ram, s: Space) {
    forall a :: a in s.mem ==> Stored(ram, a, s.mem[a])
  }

  // The word at x lies in a chunk, behind its objects.
  ghost predicate Unused(s: Space, x: nat) {
    x % 8 == 0 && exists k :: 0 <= k < |s.chunks| && UnusedIn(s.chunks[k], x)
  }

  predicate UnusedIn(c: Chunk, x: nat) {
    c.base + c.used <= x && x + 8 <= c.base + CHUNK_SIZE
  }

  ghost predicate Behind(ram: Ram, stale: Stale, loose: map<nat, Word>, s: Space) {
    forall x :: Unused(s, x) ==> ram(x) == Content(stale, loose, x)
  }

  // Memory holds the records and, behind the objects, what was stored or stood there.
  ghost predicate Pictured(ram: Ram, stale: Stale, m: Mem) {
    Recorded(ram, m.active) && Behind(ram, stale, m.loose, m.active)
  }

  // Nothing was stored outside the chunks.
  ghost predicate Owned(loose: map<nat, Word>, s: Space) {
    forall x :: x in loose ==> InSome(s, x)
  }

  ghost predicate InSome(s: Space, x: nat) {
    exists k :: 0 <= k < |s.chunks| && s.chunks[k].base <= x < s.chunks[k].base + CHUNK_SIZE
  }

  ghost predicate Full(s: Space) {
    forall a :: a in s.mem ==> GoodSize(s.mem[a].size) && s.mem[a].size == OBJ_HEADER + 8 * |s.mem[a].payload|
  }

  lemma {:induction false} HeapFull(m: Mem)
    requires HeapOk(m)
    ensures Full(m.active) && SpaceOk(m.active)
  {
    hide SpaceOk, WalkCovers, Fitted;
  }

  lemma {:induction false} StoredFrame(ram: Ram, ram': Ram, a: nat, o: Obj)
    requires Stored(ram, a, o) && o.size == OBJ_HEADER + 8 * |o.payload|
    requires forall x: nat :: a <= x < a + o.size ==> ram'(x) == ram(x)
    ensures Stored(ram', a, o)
  {
    hide HeaderWord;
    forall k | 0 <= k < |o.payload| ensures ram'(WordAddr(a, k)) == o.payload[k] {
      assert WordAddr(a, k) + 8 <= a + o.size;
    }
  }

  // Where an object lies.
  lemma {:induction false} ObjectChunk(s: Space, a: nat) returns (k: nat)
    requires SpaceOk(s) && a in s.mem
    ensures k < |s.chunks| && s.chunks[k].base <= a && a + s.mem[a].size <= s.chunks[k].base + s.chunks[k].used
    ensures a % 8 == 0 && GoodSize(s.mem[a].size) && GoodBase(s.chunks[k].base) && s.chunks[k].used <= CHUNK_SIZE
  {
    WalkExact(s);
    WalkInside(s, |s.chunks|, a);
    hide Walk, WalkTo, WalkChunk, Parses;
    k :| 0 <= k < |s.chunks| && s.chunks[k].base <= a && a + s.mem[a].size <= s.chunks[k].base + s.chunks[k].used;
    assert ChunkOk(s, s.chunks[k]);
  }

  // A word behind the objects of a chunk is no object's.
  lemma {:induction false} UnusedApart(s: Space, x: nat, a: nat)
    requires SpaceOk(s) && Unused(s, x) && a in s.mem
    ensures x < a || a + s.mem[a].size <= x
  {
    var j := ObjectChunk(s, a);
    var k :| 0 <= k < |s.chunks| && UnusedIn(s.chunks[k], x);
    hide Parses, Walk;
    assert j < k ==> Apart(s.chunks[j].base, s.chunks[k].base);
    assert k < j ==> Apart(s.chunks[k].base, s.chunks[j].base);
  }

  // ---------- one word read or stored ----------

  lemma {:induction false} FreeIsUnused(m: Mem, a: nat, j: nat)
    requires HeapOk(m) && a in m.active.mem && Reachable(m, a, j) && j >= |m.active.mem[a].payload|
    ensures Unused(m.active, WordAddr(a, j)) && InSome(m.active, WordAddr(a, j))
  {
    hide FreeBehind, InSome, Unused;
    ObjectWords(m, a, j);
    BehindIsUnused(m.active, a + m.active.mem[a].size, WordAddr(a, j));
  }

  lemma {:induction false} ObjectWords(m: Mem, a: nat, j: nat)
    requires HeapOk(m) && a in m.active.mem && j >= |m.active.mem[a].payload|
    ensures WordAddr(a, j) >= a + m.active.mem[a].size && WordAddr(a, j) % 8 == 0
  {
    assert ObjOk(m.active.mem[a]);
    ObjectAligned(m.active, a);
    WordAligned(a, j);
    hide SpaceOk, WalkCovers, Fitted, WordAddr;
  }

  lemma {:induction false} WordAligned(a: nat, j: nat)
    requires a % 8 == 0
    ensures WordAddr(a, j) == a + OBJ_HEADER + 8 * j && WordAddr(a, j) % 8 == 0
  {
  }

  lemma {:induction false} ObjectAligned(s: Space, a: nat)
    requires SpaceOk(s) && a in s.mem
    ensures a % 8 == 0
  {
    hide SpaceOk;
    var k := ObjectChunk(s, a);
  }

  lemma {:induction false} BehindIsUnused(s: Space, end: nat, x: nat)
    requires FreeBehind(s, end, x) && end <= x && x % 8 == 0
    ensures Unused(s, x) && InSome(s, x)
  {
    var k :| 0 <= k < |s.chunks| && EndsIn(s.chunks[k], end, x);
    assert UnusedIn(s.chunks[k], x);
  }

  // What an array access reads is what memory holds there.
  lemma {:induction false} ReadPictured(ram: Ram, stale: Stale, m: Mem, a: nat, j: nat)
    requires HeapOk(m) && Pictured(ram, stale, m) && a in m.active.mem && ReadWord(m, a, j).Some?
    ensures ram(WordAddr(a, j)) == ReadWord(m, a, j).value
  {
    hide HeapOk, FreeBehind;
    if j < |m.active.mem[a].payload| {
      assert Stored(ram, a, m.active.mem[a]);
    } else {
      FreeIsUnused(m, a, j);
    }
  }

  // Storing a word that is in reach is updating the heap; no other object in memory notices.
  lemma {:induction false} StorePictured(ram: Ram, stale: Stale, m: Mem, a: nat, j: nat, w: Word)
    requires HeapOk(m) && Pictured(ram, stale, m) && Owned(m.loose, m.active)
    requires a in m.active.mem && Reachable(m, a, j)
    ensures var m' := StoreWord(m, a, j, w);
            Pictured(Store(ram, WordAddr(a, j), w), stale, m') && Owned(m'.loose, m'.active)
  {
    HeapFull(m);
    if j < |m.active.mem[a].payload| {
      StoreInside(ram, stale, m, a, j, w);
    } else {
      FreeIsUnused(m, a, j);
      StoreBehind(ram, stale, m, a, j, w);
    }
  }

  lemma {:induction false} StoreInside(ram: Ram, stale: Stale, m: Mem, a: nat, j: nat, w: Word)
    requires SpaceOk(m.active) && Full(m.active) && Pictured(ram, stale, m) && Owned(m.loose, m.active)
    requires a in m.active.mem && j < |m.active.mem[a].payload|
    ensures var m' := StoreWord(m, a, j, w);
            Pictured(Store(ram, WordAddr(a, j), w), stale, m') && Owned(m'.loose, m'.active)
  {
    var s, x := m.active, WordAddr(a, j);
    var ram', t := Store(ram, x, w), SetWord(s, a, j, w);
    hide SpaceOk, HeaderWord;
    forall b | b in t.mem ensures Stored(ram', b, t.mem[b]) {
      if b != a {
        Disjoint(s, a, b);
        StoredFrame(ram, ram', b, s.mem[b]);
      } else {
        StoredUpdate(ram, a, s.mem[a], j, w);
      }
    }
    forall y | Unused(t, y) ensures ram'(y) == Content(stale, m.loose, y) {
      assert Unused(s, y);
      UnusedApart(s, y, a);
    }
    OwnedFrame(m.loose, s, t);
  }

  lemma {:induction false} OwnedFrame(loose: map<nat, Word>, s: Space, t: Space)
    requires Owned(loose, s) && s.chunks == t.chunks
    ensures Owned(loose, t)
  {
    forall x | x in loose ensures InSome(t, x) {
      assert InSome(s, x);
    }
  }

  lemma {:induction false} StoredUpdate(ram: Ram, a: nat, o: Obj, j: nat, w: Word)
    requires Stored(ram, a, o) && j < |o.payload|
    ensures Stored(Store(ram, WordAddr(a, j), w), a, o.(payload := o.payload[j := w]))
  {
    hide HeaderWord;
  }

  lemma {:induction false} StoreBehind(ram: Ram, stale: Stale, m: Mem, a: nat, j: nat, w: Word)
    requires SpaceOk(m.active) && Full(m.active) && Pictured(ram, stale, m) && Owned(m.loose, m.active)
    requires a in m.active.mem && j >= |m.active.mem[a].payload|
    requires Unused(m.active, WordAddr(a, j)) && InSome(m.active, WordAddr(a, j))
    ensures var m' := StoreWord(m, a, j, w);
            Pictured(Store(ram, WordAddr(a, j), w), stale, m') && Owned(m'.loose, m'.active)
  {
    var s, x := m.active, WordAddr(a, j);
    hide SpaceOk, Stored, Unused;
    forall b | b in s.mem ensures Stored(Store(ram, x, w), b, s.mem[b]) {
      UnusedApart(s, x, b);
      StoredFrame(ram, Store(ram, x, w), b, s.mem[b]);
    }
  }

  // ---------- what is out of reach ----------

  // Does the word at x belong to an object other than the one at a?
  ghost predicate ReachesOther(s: Space, a: nat, x: nat) {
    exists b :: Covers(s, a, x, b)
  }

  ghost predicate Covers(s: Space, a: nat, x: nat, b: nat) {
    b in s.mem && b != a && b <= x < b + s.mem[b].size
  }

  // Does the word at x lie in the chunk that holds the object at a?
  ghost predicate SameChunkAs(s: Space, a: nat, x: nat)
    requires a in s.mem
  {
    exists k :: 0 <= k < |s.chunks| && s.chunks[k].base <= a &&
                a + s.mem[a].size <= s.chunks[k].base + s.chunks[k].used && x + 8 <= s.chunks[k].base + CHUNK_SIZE
  }

  // The access to element i of an array with n elements, i <= n, is carried out in the model
  // exactly when the word lies in the array's chunk and belongs to no other object; and it belongs
  // to one exactly when an object begins between the array's end and the word.
  lemma {:induction false} ElementReaches(m: Mem, a: nat, i: nat)
    requires HeapOk(m) && a in m.active.mem && i + 1 <= |m.active.mem[a].payload|
    ensures Reachable(m, a, FIRST_ELEM + i) <==>
              SameChunkAs(m.active, a, ElemAddr(a, i)) && !ReachesOther(m.active, a, ElemAddr(a, i))
    ensures ReachesOther(m.active, a, ElemAddr(a, i)) <==>
              exists b :: b in m.active.mem && a + m.active.mem[a].size <= b <= ElemAddr(a, i)
  {
    hide HeapOk, ReachesOther, SameChunkAs, Reachable;
    ReachedBegins(m, a, i);
    var x := ElemAddr(a, i);
    if Reachable(m, a, FIRST_ELEM + i) {
      ReachableIsFree(m, a, FIRST_ELEM + i);
    }
    if SameChunkAs(m.active, a, x) && !ReachesOther(m.active, a, x) {
      FreeIsReachable(m, a, i);
    }
  }

  lemma {:induction false} ReachedBegins(m: Mem, a: nat, i: nat)
    requires HeapOk(m) && a in m.active.mem && i + 1 <= |m.active.mem[a].payload|
    ensures ReachesOther(m.active, a, ElemAddr(a, i)) <==>
              exists b :: b in m.active.mem && a + m.active.mem[a].size <= b <= ElemAddr(a, i)
  {
    var s, x := m.active, ElemAddr(a, i);
    var end := a + s.mem[a].size;
    assert ObjOk(s.mem[a]);
    if b :| b in s.mem && end <= b <= x {
      assert ObjOk(s.mem[b]);
      assert Covers(s, a, x, b);
    }
    if ReachesOther(s, a, x) {
      var b :| Covers(s, a, x, b);
      hide WalkCovers, Fitted;
      Disjoint(s, a, b);
    }
  }

  lemma {:induction false} ReachableIsFree(m: Mem, a: nat, j: nat)
    requires HeapOk(m) && a in m.active.mem && Reachable(m, a, j)
    ensures SameChunkAs(m.active, a, WordAddr(a, j)) && !ReachesOther(m.active, a, WordAddr(a, j))
  {
    var s, x := m.active, WordAddr(a, j);
    HeapFull(m);
    var c := ObjectChunk(s, a);
    if j >= |s.mem[a].payload| {
      FreeIsUnused(m, a, j);
      EndsChunk(s, a, x);
    }
    hide HeapOk, SpaceOk, Unused, FreeBehind;
    forall b | b in s.mem && b != a ensures !Covers(s, a, x, b) {
      if j >= |s.mem[a].payload| {
        UnusedApart(s, x, b);
      } else {
        Disjoint(s, a, b);
      }
    }
  }

  // The chunk behind whose objects x is free is the one a lies in.
  lemma {:induction false} EndsChunk(s: Space, a: nat, x: nat)
    requires SpaceOk(s) && a in s.mem && FreeBehind(s, a + s.mem[a].size, x)
    ensures SameChunkAs(s, a, x)
  {
    var c := ObjectChunk(s, a);
    var end := a + s.mem[a].size;
    var k :| 0 <= k < |s.chunks| && EndsIn(s.chunks[k], end, x);
    assert ChunkOk(s, s.chunks[k]);
    hide Parses, Walk;
    assert c < k ==> Apart(s.chunks[c].base, s.chunks[k].base);
    assert k < c ==> Apart(s.chunks[k].base, s.chunks[c].base);
  }

  lemma {:induction false} FreeIsReachable(m: Mem, a: nat, i: nat)
    requires HeapOk(m) && a in m.active.mem && i + 1 <= |m.active.mem[a].payload|
    requires SameChunkAs(m.active, a, ElemAddr(a, i)) && !ReachesOther(m.active, a, ElemAddr(a, i))
    ensures Reachable(m, a, FIRST_ELEM + i)
  {
    var s, x, o := m.active, ElemAddr(a, i), m.active.mem[a];
    var k :| 0 <= k < |s.chunks| && s.chunks[k].base <= a && a + o.size <= s.chunks[k].base + s.chunks[k].used &&
             x + 8 <= s.chunks[k].base + CHUNK_SIZE;
    assert ObjOk(o);
    hide HeapOk, ReachesOther, SameChunkAs;
    if FIRST_ELEM + i >= |o.payload| {
      assert a + o.size <= x < a + o.size + 24;
      if a + o.size < s.chunks[k].base + s.chunks[k].used {
        NextReached(m, a, k, x);
        assert false;
      } else {
        assert EndsIn(s.chunks[k], a + o.size, WordAddr(a, FIRST_ELEM + i));
      }
    }
  }

  lemma {:induction false} NextReached(m: Mem, a: nat, k: nat, x: nat)
    requires HeapOk(m) && a in m.active.mem && k < |m.active.chunks| && m.active.chunks[k].base <= a
    requires var end, c := a + m.active.mem[a].size, m.active.chunks[k]; end < c.base + c.used && end <= x < end + 24
    ensures ReachesOther(m.active, a, x)
  {
    var s := m.active;
    var end, c := a + s.mem[a].size, s.chunks[k];
    assert ObjOk(s.mem[a]) && ChunkOk(s, c);
    hide WalkCovers, Fitted, Parses, WalkChunk, Walk;
    ChunkHolds(s, k, a);
    NextBegins(s.mem, c.base, 0, c.used, a);
    assert ObjOk(s.mem[end]);
    assert Covers(s, a, x, end);
  }

  // In a chunk, an object that is not the last has one right behind it.
  lemma {:induction false} NextBegins(mem: map<nat, Obj>, base: nat, i: nat, used: nat, a: nat)
    requires Parses(mem, base, i, used) && a in WalkChunk(mem, base, i, used) && a in mem
    requires a + mem[a].size < base + used
    ensures a + mem[a].size in mem
    decreases used - i
  {
    var j := i + mem[base + i].size;
    if a in WalkChunk(mem, base, j, used) {
      NextBegins(mem, base, j, used, a);
    } else {
      assert a == base + i;
    }
  }

  // ---------- what the collector sees ----------

  // The test of markObjects, on memory: type in the header, then the word behind it.
  predicate SourceTraces(ram: Ram, a: nat) {
    ram(a) / TWO32 % 0x1_0000 == 1 && ram(TraceAddr(a)) % TWO32 == TAG_POINTER
  }

  // The words it then goes through.
  function SourceScans(ram: Ram, a: nat): (r: seq<nat>)
    ensures |r| == ram(TraceAddr(a)) / TWO32
    ensures forall i :: 0 <= i < |r| ==> r[i] == ram(WordAddr(a, 1 + i))
  {
    seq<nat>(ram(TraceAddr(a)) / TWO32, i requires i >= 0 => ram(WordAddr(a, 1 + i)))
  }

  lemma {:induction false} HeaderKind(size: nat, kind: Kind, marked: bool)
    requires size < TWO32
    ensures HeaderWord(size, kind, marked) / TWO32 % 0x1_0000 == if kind == ObjArray then 1 else 0
  {
  }

  // On memory that holds the record, the source traces exactly the traced arrays, and of one whose
  // trace word does not run over goes through exactly the scanned words.
  lemma {:induction false} TracedInMemory(ram: Ram, a: nat, o: Obj)
    requires Stored(ram, a, o) && ObjOk(o)
    ensures SourceTraces(ram, a) <==> Traced(o)
    ensures Traced(o) && !Overruns(o) ==> SourceScans(ram, a) == Scanned(o)
  {
    HeaderKind(o.size, o.kind, o.marked);
    hide HeaderWord;
    assert ram(WordAddr(a, 0)) == o.payload[0];
    if Traced(o) && !Overruns(o) {
      var r, q := SourceScans(ram, a), Scanned(o);
      assert |r| == |q|;
      forall i | 0 <= i < |r| ensures r[i] == q[i] {
        assert ram(WordAddr(a, 1 + i)) == o.payload[1 + i];
      }
    }
  }

  // ---------- an object right behind ----------

  // With an object right behind, the last two elements are its header, and the index equal to the
  // length is the word that decides whether it is traced.
  lemma {:induction false} LastElementsAreNextHeader(ram: Ram, s: Space, a: nat, n: nat)
    requires Recorded(ram, s) && a in s.mem && a + s.mem[a].size in s.mem && n + 1 == |s.mem[a].payload|
    requires ObjOk(s.mem[a]) && ObjOk(s.mem[a + s.mem[a].size])
    ensures var b := a + s.mem[a].size;
            var next := s.mem[b];
            (n >= 2 ==> ElemAddr(a, n - 2) == b && ram(b) == HeaderWord(next.size, next.kind, next.marked)) &&
            (n >= 1 ==> ElemAddr(a, n - 1) == b + 8 && ram(b + 8) == next.forwarded) &&
            ElemAddr(a, n) == TraceAddr(b) && ram(TraceAddr(b)) == next.payload[0]
  {
    hide HeaderWord;
    var b := a + s.mem[a].size;
    assert Stored(ram, b, s.mem[b]);
    assert ElemAddr(a, n) == WordAddr(b, 0);
  }

  // So any other value stored at the first two destroys the header, and what is stored at the third
  // decides the tracing.
  lemma {:induction false} StoringBehind(ram: Ram, b: nat, next: Obj, w: Word)
    requires Stored(ram, b, next) && ObjOk(next) && next.kind == ObjArray
    ensures w != ram(b) ==> !Stored(Store(ram, b, w), b, next)
    ensures w != ram(b + 8) ==> !Stored(Store(ram, b + 8, w), b, next)
    ensures SourceTraces(Store(ram, TraceAddr(b), w), b) <==> w % TWO32 == TAG_POINTER
  {
    HeaderKind(next.size, next.kind, next.marked);
    hide HeaderWord;
  }
}
