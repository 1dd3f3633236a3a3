// One half-space of the heap (src/vm/Heap.h, src/vm/Heap.cpp): bump-allocated chunks holding
// objects laid end to end, found again only by walking from object to object by size.
module Space {
  import opened Words
  import opened Wrappers

  const CHUNK_SIZE: nat := 4194304
  const OBJ_HEADER: nat := 16

  function Align(n: nat): nat {
    (n + 7) / 8 * 8
  }

  datatype Kind = ObjString | ObjArray

  // One object: the header fields, then the 64-bit words behind the header up to the object's
  // end.  `size` counts the header.
  datatype Obj = Obj(size: nat, kind: Kind, marked: bool, forwarded: Word, payload: seq<Word>)

  datatype Chunk = Chunk(base: nat, used: nat)

  // mem gives the object whose header starts at an address.
  datatype Space = Space(chunks: seq<Chunk>, mem: map<nat, Obj>)

  const EMPTY: Space := Space([], map[])

  // ---------- malloc ----------

  predicate Apart(a: nat, b: nat) {
    a + CHUNK_SIZE <= b || b + CHUNK_SIZE <= a
  }

  predicate GoodBase(b: nat) {
    16 <= b && b % 8 == 0 && b + CHUNK_SIZE < 0x1_0000_0000_0000
  }

  // Given the chunks still allocated, a new one disjoint from them; None when memory is exhausted.
  type Malloc = m: set<nat> -> Option<nat> |
    forall live: set<nat>, b: nat :: m(live) == Some(b) ==> GoodBase(b) && forall c :: c in live ==> Apart(b, c)
    witness (live: set<nat>) => None

  // ---------- walking ----------

  predicate GoodSize(n: nat) {
    OBJ_HEADER <= n <= CHUNK_SIZE && n % 8 == 0
  }

  function WalkChunk(mem: map<nat, Obj>, base: nat, i: nat, used: nat): seq<nat>
    decreases used - i
  {
    if i < used && base + i in mem && mem[base + i].size > 0 then
      [base + i] + WalkChunk(mem, base, i + mem[base + i].size, used)
    else []
  }

  // From offset i on, objects of good size stand end to end up to exactly `used`.
  predicate Parses(mem: map<nat, Obj>, base: nat, i: nat, used: nat)
    decreases used - i
  {
    i == used ||
    (i < used && base + i in mem && GoodSize(mem[base + i].size) && Parses(mem, base, i + mem[base + i].size, used))
  }

  function WalkTo(s: Space, n: nat): seq<nat>
    requires n <= |s.chunks|
  {
    if n == 0 then [] else WalkTo(s, n - 1) + WalkChunk(s.mem, s.chunks[n - 1].base, 0, s.chunks[n - 1].used)
  }

  function Walk(s: Space): seq<nat> {
    WalkTo(s, |s.chunks|)
  }

  ghost predicate ChunkOk(s: Space, c: Chunk) {
    GoodBase(c.base) && c.used <= CHUNK_SIZE && Parses(s.mem, c.base, 0, c.used)
  }

  ghost predicate SpaceOk(s: Space) {
    (forall k :: 0 <= k < |s.chunks| ==> ChunkOk(s, s.chunks[k])) &&
    (forall j, k :: 0 <= j < k < |s.chunks| ==> Apart(s.chunks[j].base, s.chunks[k].base)) &&
    (forall a :: a in s.mem ==> a in Walk(s))
  }

  function Bases(s: Space): set<nat> {
    set k | 0 <= k < |s.chunks| :: s.chunks[k].base
  }

  // ---------- heapAlloc ----------

  function Last(s: Space): Chunk
    requires s.chunks != []
  {
    s.chunks[|s.chunks| - 1]
  }

  // A space whose last chunk has room for `total` more bytes.
  function Reserve(malloc: Malloc, others: set<nat>, s: Space, total: nat): (r: Option<Space>)
    ensures r.Some? ==> r.value.chunks != [] && r.value.mem == s.mem
  {
    if s.chunks == [] || Last(s).used + total > CHUNK_SIZE then
      var b := malloc(others + Bases(s));
      if b.None? then None else Some(s.(chunks := s.chunks + [Chunk(b.value, 0)]))
    else Some(s)
  }

  // Where the next object goes.
  function Top(s: Space): nat
    requires s.chunks != []
  {
    Last(s).base + Last(s).used
  }

  function Put(s: Space, o: Obj): Space
    requires s.chunks != []
  {
    Space(s.chunks[|s.chunks| - 1 := Last(s).(used := Last(s).used + o.size)], s.mem[Top(s) := o])
  }

  function Place(malloc: Malloc, others: set<nat>, s: Space, o: Obj): Option<(Space, nat)> {
    var r := Reserve(malloc, others, s, o.size);
    if r.None? then None else Some((Put(r.value, o), Top(r.value)))
  }

  // Sizes are rounded up to the next multiple of eight.
  lemma {:induction false} AlignIsLeast(n: nat)
    ensures Align(n) % 8 == 0 && n <= Align(n) < n + 8
  {
  }

  // An object that ends within the four megabytes of the last chunk is placed behind what that chunk
  // holds; otherwise at the start of a new one, or nowhere.
  lemma {:induction false} PlaceFits(malloc: Malloc, others: set<nat>, s: Space, o: Obj)
    ensures s.chunks != [] && Last(s).used + o.size <= 4 * 1024 * 1024 ==>
              var c := Last(s);
              Place(malloc, others, s, o) ==
                Some((Space(s.chunks[..|s.chunks| - 1] + [Chunk(c.base, c.used + o.size)],
                            s.mem[c.base + c.used := o]), c.base + c.used))
    ensures s.chunks == [] || Last(s).used + o.size > 4 * 1024 * 1024 ==>
              var b := malloc(others + set c | c in s.chunks :: c.base);
              Place(malloc, others, s, o) ==
                if b.None? then None
                else Some((Space(s.chunks + [Chunk(b.value, o.size)], s.mem[b.value := o]), b.value))
  {
    assert Bases(s) == set c | c in s.chunks :: c.base;
    if s.chunks != [] {
      var n, c := |s.chunks| - 1, Last(s);
      assert s.chunks[n := c.(used := c.used + o.size)] == s.chunks[..n] + [Chunk(c.base, c.used + o.size)];
    }
    var b := malloc(others + Bases(s));
    if b.Some? {
      var cs := s.chunks + [Chunk(b.value, 0)];
      assert cs[|s.chunks| := Chunk(b.value, o.size)] == s.chunks + [Chunk(b.value, o.size)];
    }
  }

  // ---------- lemmas about walking ----------

  lemma {:induction false} WalkRange(mem: map<nat, Obj>, base: nat, i: nat, used: nat)
    requires Parses(mem, base, i, used)
    ensures forall a :: a in WalkChunk(mem, base, i, used) ==>
              a in mem && GoodSize(mem[a].size) && base + i <= a && a + mem[a].size <= base + used
    decreases used - i
  {
    if i < used {
      WalkRange(mem, base, i + mem[base + i].size, used);
    }
  }

  lemma {:induction false} ChunkFindsObjects(mem: map<nat, Obj>, base: nat, i: nat, used: nat)
    ensures forall a :: a in WalkChunk(mem, base, i, used) ==> a in mem
    decreases used - i
  {
    if i < used && base + i in mem && mem[base + i].size > 0 {
      ChunkFindsObjects(mem, base, i + mem[base + i].size, used);
    }
  }

  lemma {:induction false} WalkFindsObjects(s: Space, n: nat)
    requires n <= |s.chunks|
    ensures forall a :: a in WalkTo(s, n) ==> a in s.mem
  {
    if n > 0 {
      WalkFindsObjects(s, n - 1);
      ChunkFindsObjects(s.mem, s.chunks[n - 1].base, 0, s.chunks[n - 1].used);
    }
  }

  // Only sizes at addresses of the chunk matter.
  lemma {:induction false} WalkFrame(mem: map<nat, Obj>, mem': map<nat, Obj>, base: nat, i: nat, used: nat)
    requires Parses(mem, base, i, used)
    requires forall a :: a in mem && base + i <= a < base + used ==> a in mem' && mem'[a].size == mem[a].size
    ensures Parses(mem', base, i, used) && WalkChunk(mem', base, i, used) == WalkChunk(mem, base, i, used)
    decreases used - i
  {
    if i < used {
      WalkFrame(mem, mem', base, i + mem[base + i].size, used);
    }
  }

  // Putting an object at the end of what is used adds it at the end of the walk.
  lemma {:induction false} WalkExtend(mem: map<nat, Obj>, base: nat, i: nat, used: nat, at: nat, o: Obj)
    requires i <= used && Parses(mem, base, i, used) && GoodSize(o.size) && at == base + used
    ensures Parses(mem[at := o], base, i, used + o.size)
    ensures WalkChunk(mem[at := o], base, i, used + o.size) == WalkChunk(mem, base, i, used) + [at]
    decreases used - i
  {
    var mem' := mem[at := o];
    if i < used {
      var z := mem[base + i].size;
      WalkRange(mem, base, i, used);
      assert base + i in WalkChunk(mem, base, i, used);
      WalkExtend(mem, base, i + z, used, at, o);
      assert mem'[base + i] == mem[base + i];
    } else {
      assert WalkChunk(mem', base, used + o.size, used + o.size) == [];
    }
  }

  lemma {:induction false} WalkToFrame(s: Space, t: Space, n: nat)
    requires n <= |s.chunks| && n <= |t.chunks| && s.chunks[..n] == t.chunks[..n]
    requires forall k :: 0 <= k < n ==> ChunkOk(s, s.chunks[k])
    requires forall a, k {:trigger a in s.mem, s.chunks[k]} ::
               0 <= k < n && a in s.mem && s.chunks[k].base <= a < s.chunks[k].base + s.chunks[k].used ==>
               a in t.mem && t.mem[a].size == s.mem[a].size
    ensures WalkTo(t, n) == WalkTo(s, n)
    ensures forall k :: 0 <= k < n ==> ChunkOk(t, t.chunks[k])
  {
    if n > 0 {
      assert s.chunks[n - 1] == t.chunks[n - 1] by {
        assert s.chunks[..n][n - 1] == t.chunks[..n][n - 1];
      }
      assert s.chunks[..n - 1] == t.chunks[..n - 1] by {
        assert s.chunks[..n][..n - 1] == t.chunks[..n][..n - 1];
      }
      WalkToFrame(s, t, n - 1);
      WalkFrame(s.mem, t.mem, s.chunks[n - 1].base, 0, s.chunks[n - 1].used);
    }
  }

  // An address in the walk lies in one of the chunks.
  lemma {:induction false} WalkInside(s: Space, n: nat, a: nat)
    requires n <= |s.chunks| && (forall k :: 0 <= k < n ==> ChunkOk(s, s.chunks[k])) && a in WalkTo(s, n)
    ensures a in s.mem && GoodSize(s.mem[a].size)
    ensures exists k :: 0 <= k < n && s.chunks[k].base <= a && a + s.mem[a].size <= s.chunks[k].base + s.chunks[k].used
  {
    var c := s.chunks[n - 1];
    if a in WalkChunk(s.mem, c.base, 0, c.used) {
      WalkRange(s.mem, c.base, 0, c.used);
    } else {
      WalkInside(s, n - 1, a);
    }
  }

  // ---------- allocation keeps the space well-formed ----------

  // A new empty chunk changes nothing that is walked.
  lemma {:induction false} NewChunkOk(s: Space, b: nat)
    requires SpaceOk(s) && GoodBase(b) && forall c :: c in Bases(s) ==> Apart(b, c)
    ensures var r := s.(chunks := s.chunks + [Chunk(b, 0)]); SpaceOk(r) && Walk(r) == Walk(s)
  {
    var r, n := s.(chunks := s.chunks + [Chunk(b, 0)]), |s.chunks|;
    hide Parses, WalkChunk;
    WalkToFrame(s, r, n);
    NewChunkEmpty(r.mem, b);
    assert r.chunks[n] == Chunk(b, 0);
    assert Walk(r) == WalkTo(r, n) + [];
    forall j, k | 0 <= j < k < |r.chunks| ensures Apart(r.chunks[j].base, r.chunks[k].base) {
      if k == n {
        assert s.chunks[j].base in Bases(s);
      }
    }
  }

  lemma {:induction false} NewChunkEmpty(mem: map<nat, Obj>, b: nat)
    ensures WalkChunk(mem, b, 0, 0) == [] && Parses(mem, b, 0, 0)
  {
  }

  lemma {:induction false} ReserveOk(malloc: Malloc, others: set<nat>, s: Space, total: nat)
    requires SpaceOk(s) && GoodSize(total) && Reserve(malloc, others, s, total).Some?
    ensures var r := Reserve(malloc, others, s, total).value;
            SpaceOk(r) && Walk(r) == Walk(s) && Last(r).used + total <= CHUNK_SIZE
  {
    if s.chunks == [] || Last(s).used + total > CHUNK_SIZE {
      NewChunkOk(s, malloc(others + Bases(s)).value);
    }
  }

  lemma {:induction false} TopIsFresh(s: Space)
    requires SpaceOk(s) && s.chunks != [] && Last(s).used < CHUNK_SIZE
    ensures Top(s) !in s.mem
  {
    var n := |s.chunks|;
    forall a | a in s.mem ensures a != Top(s) {
      WalkInside(s, n, a);
      var k :| 0 <= k < n && s.chunks[k].base <= a && a + s.mem[a].size <= s.chunks[k].base + s.chunks[k].used;
      assert ChunkOk(s, s.chunks[k]) && ChunkOk(s, s.chunks[n - 1]);
    }
  }

  lemma {:induction false} WalkLast(s: Space)
    requires s.chunks != []
    ensures Walk(s) == WalkTo(s, |s.chunks| - 1) + WalkChunk(s.mem, Last(s).base, 0, Last(s).used)
  {
  }

  lemma {:induction false} PutWalk(s: Space, o: Obj)
    requires SpaceOk(s) && s.chunks != [] && GoodSize(o.size) && Last(s).used + o.size <= CHUNK_SIZE
    ensures Walk(Put(s, o)) == Walk(s) + [Top(s)]
    ensures forall k :: 0 <= k < |s.chunks| ==> ChunkOk(Put(s, o), Put(s, o).chunks[k])
  {
    hide WalkChunk, Parses, WalkTo, GoodBase;
    var t, n, c := Put(s, o), |s.chunks| - 1, Last(s);
    hide Walk, WalkTo, WalkChunk, Parses;
    TopIsFresh(s);
    assert ChunkOk(s, s.chunks[n]);
    WalkToFrame(s, t, n);
    WalkExtend(s.mem, c.base, 0, c.used, Top(s), o);
    WalkLast(s);
    WalkLast(t);
    assert |t.chunks| == n + 1 && Last(t) == Chunk(c.base, c.used + o.size);
    hide SpaceOk, Top;
    Regroup(WalkTo(s, n), WalkChunk(s.mem, c.base, 0, c.used), Top(s));
  }

  lemma {:induction false} Regroup(u: seq<nat>, v: seq<nat>, a: nat)
    ensures u + v + [a] == u + (v + [a])
  {
  }

  lemma {:induction false} PutOk(s: Space, o: Obj)
    requires SpaceOk(s) && s.chunks != [] && GoodSize(o.size) && Last(s).used + o.size <= CHUNK_SIZE
    ensures SpaceOk(Put(s, o)) && Top(s) !in s.mem && Walk(Put(s, o)) == Walk(s) + [Top(s)]
  {
    TopIsFresh(s);
    PutWalk(s, o);
    var t := Put(s, o);
    forall j, k | 0 <= j < k < |t.chunks| ensures Apart(t.chunks[j].base, t.chunks[k].base) {
      assert Apart(s.chunks[j].base, s.chunks[k].base);
    }
    forall a | a in t.mem ensures a in Walk(t) {
      if a != Top(s) {
        assert a in s.mem;
      }
    }
  }

  // heapAlloc: the object is new, and it comes last in the walk.
  lemma {:induction false} PlaceOk(malloc: Malloc, others: set<nat>, s: Space, o: Obj)
    requires SpaceOk(s) && GoodSize(o.size) && Place(malloc, others, s, o).Some?
    ensures var (t, a) := Place(malloc, others, s, o).value;
            SpaceOk(t) && a !in s.mem && t.mem == s.mem[a := o] && Walk(t) == Walk(s) + [a]
  {
    ReserveOk(malloc, others, s, o.size);
    PutOk(Reserve(malloc, others, s, o.size).value, o);
  }

  // ---------- chunks of different spaces ----------

  // No chunk of s overlaps a chunk starting in `others`.
  ghost predicate AwayFrom(others: set<nat>, s: Space) {
    forall k, b :: 0 <= k < |s.chunks| && b in others ==> Apart(s.chunks[k].base, b)
  }

  lemma {:induction false} PlaceAway(malloc: Malloc, others: set<nat>, s: Space, o: Obj)
    requires AwayFrom(others, s) && Place(malloc, others, s, o).Some?
    ensures AwayFrom(others, Place(malloc, others, s, o).value.0)
  {
    var t := Reserve(malloc, others, s, o.size).value;
    forall k, b | 0 <= k < |t.chunks| && b in others ensures Apart(t.chunks[k].base, b) {
      if k == |s.chunks| {
        assert b in others + Bases(s);
      }
    }
  }

  // Objects of spaces with disjoint chunks have different addresses.
  lemma {:induction false} AwayDisjoint(s: Space, t: Space, a: nat)
    requires SpaceOk(s) && SpaceOk(t) && AwayFrom(Bases(s), t) && a in s.mem
    ensures a !in t.mem
  {
    WalkInside(s, |s.chunks|, a);
    var j :| 0 <= j < |s.chunks| && s.chunks[j].base <= a && a + s.mem[a].size <= s.chunks[j].base + s.chunks[j].used;
    assert ChunkOk(s, s.chunks[j]) && s.chunks[j].base in Bases(s);
    forall b | b in t.mem ensures a != b {
      WalkInside(t, |t.chunks|, b);
      var k :| 0 <= k < |t.chunks| && t.chunks[k].base <= b && b + t.mem[b].size <= t.chunks[k].base + t.chunks[k].used;
      assert ChunkOk(t, t.chunks[k]) && Apart(t.chunks[k].base, s.chunks[j].base);
    }
  }

  // ---------- next-fit placement ----------

  // Chunks used, and bytes used in the last one, after placing objects of these sizes.
  datatype Extent = Extent(chunks: nat, used: nat)

  function FitStep(e: Extent, size: nat): Extent {
    if e.chunks == 0 || e.used + size > CHUNK_SIZE then Extent(e.chunks + 1, size) else Extent(e.chunks, e.used + size)
  }

  function FitFrom(e: Extent, sizes: seq<nat>): Extent {
    if sizes == [] then e else FitStep(FitFrom(e, sizes[..|sizes| - 1]), sizes[|sizes| - 1])
  }

  function Sizes(mem: map<nat, Obj>, ws: seq<nat>): (r: seq<nat>)
    requires forall a :: a in ws ==> a in mem
    ensures |r| == |ws|
  {
    seq(|ws|, k requires 0 <= k < |ws| => mem[ws[k]].size)
  }

  function Sum(sizes: seq<nat>): nat {
    if sizes == [] then 0 else Sum(sizes[..|sizes| - 1]) + sizes[|sizes| - 1]
  }

  function ExtentOf(s: Space): Extent {
    Extent(|s.chunks|, if s.chunks == [] then 0 else Last(s).used)
  }

  function UsedTo(s: Space, n: nat): nat
    requires n <= |s.chunks|
  {
    if n == 0 then 0 else UsedTo(s, n - 1) + s.chunks[n - 1].used
  }

  // What totalAllocated counts.
  function Used(s: Space): nat {
    UsedTo(s, |s.chunks|)
  }

  lemma {:induction false} UsedPrefix(s: Space, t: Space, n: nat)
    requires n <= |s.chunks| && n <= |t.chunks| && forall k :: 0 <= k < n ==> s.chunks[k] == t.chunks[k]
    ensures UsedTo(s, n) == UsedTo(t, n)
  {
    if n > 0 {
      UsedPrefix(s, t, n - 1);
    }
  }

  // heapAlloc advances the extent by one next-fit step and the total by the object's size.
  lemma {:induction false} PlaceExtent(malloc: Malloc, others: set<nat>, s: Space, o: Obj)
    requires GoodSize(o.size) && Place(malloc, others, s, o).Some?
    ensures var t := Place(malloc, others, s, o).value.0;
            ExtentOf(t) == FitStep(ExtentOf(s), o.size) && Used(t) == Used(s) + o.size
  {
    var r, t := Reserve(malloc, others, s, o.size).value, Place(malloc, others, s, o).value.0;
    UsedPrefix(s, r, |s.chunks|);
    UsedPrefix(r, t, |r.chunks| - 1);
  }

  predicate AtMost(e: Extent, f: Extent) {
    e.chunks < f.chunks || (e.chunks == f.chunks && e.used <= f.used)
  }

  lemma {:induction false} AtMostTransitive(e: Extent, f: Extent, g: Extent)
    requires AtMost(e, f)
    ensures AtMost(f, g) ==> AtMost(e, g)
  {
  }

  lemma {:induction false} FitStepMonotone(e: Extent, f: Extent, size: nat)
    requires AtMost(e, f) && size <= CHUNK_SIZE
    ensures AtMost(FitStep(e, size), FitStep(f, size)) && AtMost(f, FitStep(f, size))
  {
  }

  // ---------- the walk visits every object exactly once ----------

  ghost predicate Distinct(w: seq<nat>) {
    forall i, j :: 0 <= i < j < |w| ==> w[i] != w[j]
  }

  lemma {:induction false} WalkChunkDistinct(mem: map<nat, Obj>, base: nat, i: nat, used: nat)
    requires Parses(mem, base, i, used)
    ensures Distinct(WalkChunk(mem, base, i, used))
    decreases used - i
  {
    if i < used {
      var j := i + mem[base + i].size;
      WalkChunkDistinct(mem, base, j, used);
      WalkRange(mem, base, j, used);
    }
  }

  lemma {:induction false} DistinctConcat(v: seq<nat>, w: seq<nat>)
    requires Distinct(v) && Distinct(w) && forall a :: a in v ==> a !in w
    ensures Distinct(v + w)
  {
    forall i, j | 0 <= i < j < |v + w| ensures (v + w)[i] != (v + w)[j] {
      if i < |v| <= j {
        assert v[i] in v && w[j - |v|] in w;
      }
    }
  }

  lemma {:induction false} WalkToDistinct(s: Space, n: nat)
    requires SpaceOk(s) && n <= |s.chunks|
    ensures Distinct(WalkTo(s, n))
  {
    if n > 0 {
      var c := s.chunks[n - 1];
      WalkToDistinct(s, n - 1);
      WalkChunkDistinct(s.mem, c.base, 0, c.used);
      WalkRange(s.mem, c.base, 0, c.used);
      forall a | a in WalkTo(s, n - 1) ensures a !in WalkChunk(s.mem, c.base, 0, c.used) {
        WalkInside(s, n - 1, a);
        var k :| 0 <= k < n - 1 && s.chunks[k].base <= a && a + s.mem[a].size <= s.chunks[k].base + s.chunks[k].used;
        assert ChunkOk(s, s.chunks[k]) && ChunkOk(s, c) && Apart(s.chunks[k].base, c.base);
      }
      DistinctConcat(WalkTo(s, n - 1), WalkChunk(s.mem, c.base, 0, c.used));
    }
  }

  // The walk enumerates exactly the objects, each once, each inside the address range.
  lemma {:induction false} WalkExact(s: Space)
    requires SpaceOk(s)
    ensures Distinct(Walk(s))
    ensures forall a :: a in s.mem <==> a in Walk(s)
    ensures forall a :: a in s.mem ==>
              16 <= a && a + s.mem[a].size < 0x1_0000_0000_0000 && GoodSize(s.mem[a].size) && a % 8 == 0
  {
    WalkToDistinct(s, |s.chunks|);
    forall a | a in Walk(s)
      ensures a in s.mem && 16 <= a && a + s.mem[a].size < 0x1_0000_0000_0000 && GoodSize(s.mem[a].size)
    {
      WalkInside(s, |s.chunks|, a);
      var k :| 0 <= k < |s.chunks| && s.chunks[k].base <= a && a + s.mem[a].size <= s.chunks[k].base + s.chunks[k].used;
      assert ChunkOk(s, s.chunks[k]);
    }
    forall a | a in s.mem ensures a % 8 == 0 {
      WalkAligned(s, |s.chunks|, a);
    }
  }

  lemma {:induction false} ObjectInBounds(s: Space, a: nat)
    requires SpaceOk(s) && a in s.mem
    ensures a + 16 < 0x1_0000_0000_0000 && GoodSize(s.mem[a].size)
  {
    WalkExact(s);
  }

  lemma {:induction false} WalkChunkAligned(mem: map<nat, Obj>, base: nat, i: nat, used: nat)
    requires Parses(mem, base, i, used) && base % 8 == 0 && i % 8 == 0
    ensures forall a :: a in WalkChunk(mem, base, i, used) ==> a % 8 == 0
    decreases used - i
  {
    if i < used {
      WalkChunkAligned(mem, base, i + mem[base + i].size, used);
    }
  }

  lemma {:induction false} WalkAligned(s: Space, n: nat, a: nat)
    requires n <= |s.chunks| && (forall k :: 0 <= k < n ==> ChunkOk(s, s.chunks[k])) && a in WalkTo(s, n)
    ensures a % 8 == 0
  {
    var c := s.chunks[n - 1];
    WalkChunkAligned(s.mem, c.base, 0, c.used);
    if a !in WalkChunk(s.mem, c.base, 0, c.used) {
      WalkAligned(s, n - 1, a);
    }
  }

  // Two different objects never overlap.
  lemma {:induction false} ObjectsDisjoint(s: Space, a: nat, b: nat)
    requires SpaceOk(s) && a in s.mem && b in s.mem && a < b
    ensures a + s.mem[a].size <= b
  {
    var n := |s.chunks|;
    WalkInside(s, n, a);
    WalkInside(s, n, b);
    var j :| 0 <= j < n && s.chunks[j].base <= a && a + s.mem[a].size <= s.chunks[j].base + s.chunks[j].used;
    var k :| 0 <= k < n && s.chunks[k].base <= b && b + s.mem[b].size <= s.chunks[k].base + s.chunks[k].used;
    assert ChunkOk(s, s.chunks[j]) && ChunkOk(s, s.chunks[k]);
    if j == k {
      ChunkHolds(s, j, a);
      ChunkHolds(s, j, b);
      ChunkDisjoint(s.mem, s.chunks[j].base, 0, s.chunks[j].used, a, b);
    } else if j < k {
      assert Apart(s.chunks[j].base, s.chunks[k].base);
    } else {
      assert Apart(s.chunks[k].base, s.chunks[j].base);
    }
  }

  lemma {:induction false} Disjoint(s: Space, a: nat, b: nat)
    requires SpaceOk(s) && a in s.mem && b in s.mem && a != b
    ensures a + s.mem[a].size <= b || b + s.mem[b].size <= a
  {
    hide SpaceOk;
    if a < b {
      ObjectsDisjoint(s, a, b);
    } else {
      ObjectsDisjoint(s, b, a);
    }
  }

  // An object lying in chunk k's range is found by walking chunk k.
  lemma {:induction false} ChunkHolds(s: Space, k: nat, a: nat)
    requires SpaceOk(s) && k < |s.chunks| && a in s.mem
    requires s.chunks[k].base <= a && a + s.mem[a].size <= s.chunks[k].base + s.chunks[k].used
    ensures a in WalkChunk(s.mem, s.chunks[k].base, 0, s.chunks[k].used)
  {
    WalkInside(s, |s.chunks|, a);
    ChunkFinds(s, k, |s.chunks|, a);
  }

  lemma {:induction false} ChunkFinds(s: Space, k: nat, n: nat, a: nat)
    requires SpaceOk(s) && k < |s.chunks| && n <= |s.chunks| && a in WalkTo(s, n)
    requires s.chunks[k].base <= a && a < s.chunks[k].base + s.chunks[k].used
    ensures a in WalkChunk(s.mem, s.chunks[k].base, 0, s.chunks[k].used)
  {
    var c := s.chunks[n - 1];
    if a in WalkChunk(s.mem, c.base, 0, c.used) {
      WalkRange(s.mem, c.base, 0, c.used);
      assert ChunkOk(s, c) && ChunkOk(s, s.chunks[k]);
    } else {
      ChunkFinds(s, k, n - 1, a);
    }
  }

  lemma {:induction false} ChunkDisjoint(mem: map<nat, Obj>, base: nat, i: nat, used: nat, a: nat, b: nat)
    requires Parses(mem, base, i, used) && a in WalkChunk(mem, base, i, used) && b in WalkChunk(mem, base, i, used) &&
             a < b
    ensures a in mem && a + mem[a].size <= b
    decreases used - i
  {
    var j := i + mem[base + i].size;
    WalkRange(mem, base, j, used);
    if a != base + i {
      ChunkDisjoint(mem, base, j, used, a, b);
    }
  }
}
