// What the stores of the source do to memory, over whole runs: allocating, making arrays, storing
// and collecting leave in memory exactly the heap of the model (src/vm/Heap.cpp:21-171).
module Pictures {
  import opened Words
  import opened Wrappers
  import opened Space
  import opened Collector
  import opened HeapOps
  import opened Memory

  // ---------- a chunk from malloc ----------

  function HandOut(ram: Ram, stale: Stale, b: nat): Ram {
    (y: nat) => if b <= y < b + CHUNK_SIZE then stale(y) else ram(y)
  }

  // The memory when a space has grown from s to t.
  function Grown(ram: Ram, stale: Stale, s: Space, t: Space): Ram {
    if |t.chunks| > |s.chunks| then HandOut(ram, stale, Last(t).base) else ram
  }

  lemma {:induction false} HandOutBeside(ram: Ram, stale: Stale, s: Space, b: nat)
    requires SpaceOk(s) && Full(s) && Recorded(ram, s) && forall k :: 0 <= k < |s.chunks| ==> Apart(b, s.chunks[k].base)
    ensures Recorded(HandOut(ram, stale, b), s)
  {
    hide SpaceOk, Stored;
    forall a | a in s.mem ensures Stored(HandOut(ram, stale, b), a, s.mem[a]) {
      var k := ObjectChunk(s, a);
      assert Apart(b, s.chunks[k].base);
      StoredFrame(ram, HandOut(ram, stale, b), a, s.mem[a]);
    }
  }

  lemma {:induction false} NewChunkPictured(ram: Ram, stale: Stale, loose: map<nat, Word>, s: Space, b: nat)
    requires SpaceOk(s) && Full(s) && Recorded(ram, s) && Behind(ram, stale, loose, s) && Owned(loose, s)
    requires forall c :: c in Bases(s) ==> Apart(b, c)
    ensures var t, ram' := s.(chunks := s.chunks + [Chunk(b, 0)]), HandOut(ram, stale, b);
            Recorded(ram', t) && Behind(ram', stale, loose, t) && Owned(loose, t)
  {
    var t, ram', n := s.(chunks := s.chunks + [Chunk(b, 0)]), HandOut(ram, stale, b), |s.chunks|;
    forall k | 0 <= k < n ensures Apart(b, s.chunks[k].base) {
      assert s.chunks[k].base in Bases(s);
    }
    HandOutBeside(ram, stale, s, b);
    hide SpaceOk, Stored;
    assert Recorded(ram', t);
    forall x | x in loose ensures InSome(t, x) && !(b <= x < b + CHUNK_SIZE) {
      assert InSome(s, x);
      var k :| 0 <= k < n && s.chunks[k].base <= x < s.chunks[k].base + CHUNK_SIZE;
      assert t.chunks[k] == s.chunks[k] && Apart(b, s.chunks[k].base);
    }
    forall x | Unused(t, x) ensures ram'(x) == Content(stale, loose, x) {
      var k :| 0 <= k < |t.chunks| && UnusedIn(t.chunks[k], x);
      if k < n {
        assert UnusedIn(s.chunks[k], x) && Apart(b, s.chunks[k].base);
        assert Unused(s, x);
      }
    }
  }

  // Taking a new chunk where one is needed.
  lemma {:induction false} ReservePictured(ram: Ram, stale: Stale, loose: map<nat, Word>, malloc: Malloc,
                                           others: set<nat>, s: Space, size: nat, t: Space)
    requires SpaceOk(s) && Full(s) && Recorded(ram, s) && Behind(ram, stale, loose, s) && Owned(loose, s)
    requires Reserve(malloc, others, s, size) == Some(t)
    ensures var ram' := Grown(ram, stale, s, t);
            Recorded(ram', t) && Behind(ram', stale, loose, t) && Owned(loose, t)
  {
    hide SpaceOk, Recorded, Behind, Owned, Full;
    if t != s {
      var b := malloc(others + Bases(s)).value;
      assert forall c :: c in Bases(s) ==> c in others + Bases(s);
      NewChunkPictured(ram, stale, loose, s, b);
    }
  }

  // The new chunk is none of another space's either.
  lemma {:induction false} ReserveBeside(ram: Ram, stale: Stale, malloc: Malloc, from: Space, s: Space, size: nat,
                                         t: Space)
    requires SpaceOk(from) && Full(from) && Recorded(ram, from) && Reserve(malloc, Bases(from), s, size) == Some(t)
    ensures Recorded(Grown(ram, stale, s, t), from)
  {
    hide SpaceOk, Recorded, Full;
    if t != s {
      var b := malloc(Bases(from) + Bases(s)).value;
      forall k | 0 <= k < |from.chunks| ensures Apart(b, from.chunks[k].base) {
        assert from.chunks[k].base in Bases(from) + Bases(s);
      }
      HandOutBeside(ram, stale, from, b);
    }
  }

  // ---------- putting an object at the end ----------

  // The memory differs from before only in [lo, hi).
  ghost predicate SameOutside(ram: Ram, ram': Ram, lo: nat, hi: nat) {
    forall x: nat :: x < lo || hi <= x ==> ram'(x) == ram(x)
  }

  // No object of s reaches into [lo, hi).
  ghost predicate Clear(s: Space, lo: nat, hi: nat) {
    forall b :: b in s.mem ==> b + s.mem[b].size <= lo || hi <= b
  }

  ghost predicate HasRoom(s: Space, size: nat) {
    s.chunks != [] && Last(s).used + size <= CHUNK_SIZE
  }

  lemma {:induction false} PutRecorded(ram: Ram, ram': Ram, s: Space, o: Obj, hi: nat)
    requires s.chunks != [] && Full(s) && Recorded(ram, s) && Stored(ram', Top(s), o)
    requires SameOutside(ram, ram', Top(s), hi) && Clear(s, Top(s), hi)
    ensures Recorded(ram', Put(s, o))
  {
    hide Stored;
    var t := Put(s, o);
    forall b | b in t.mem ensures Stored(ram', b, t.mem[b]) {
      if b != Top(s) {
        assert s.mem[b].size == OBJ_HEADER + 8 * |s.mem[b].payload|;
        StoredFrame(ram, ram', b, s.mem[b]);
      }
    }
  }

  // What is free afterwards was free before, and is none of the object.
  lemma {:induction false} PutUnused(s: Space, o: Obj, x: nat)
    requires SpaceOk(s) && HasRoom(s, o.size) && Unused(Put(s, o), x)
    ensures Unused(s, x) && (x < Top(s) || Top(s) + o.size <= x)
  {
    var t, n := Put(s, o), |s.chunks| - 1;
    hide Parses, Walk;
    var k :| 0 <= k < |t.chunks| && UnusedIn(t.chunks[k], x);
    if k < n {
      assert UnusedIn(s.chunks[k], x) && Apart(s.chunks[k].base, s.chunks[n].base);
    } else {
      assert UnusedIn(s.chunks[n], x);
    }
  }

  // Room in the last chunk is free, and no object's.
  lemma {:induction false} RoomIsClear(s: Space, size: nat)
    requires SpaceOk(s) && HasRoom(s, size)
    ensures Clear(s, Top(s), Top(s) + size) && Top(s) % 8 == 0
    ensures forall x :: x % 8 == 0 && Top(s) <= x && x + 8 <= Top(s) + size ==> Unused(s, x) && InSome(s, x)
  {
    hide SpaceOk, Unused, InSome, Clear, Top;
    LastAligned(s);
    RoomClear(s, size);
    forall x | x % 8 == 0 && Top(s) <= x && x + 8 <= Top(s) + size ensures Unused(s, x) && InSome(s, x) {
      RoomUnused(s, size, x);
    }
  }

  lemma {:induction false} LastAligned(s: Space)
    requires SpaceOk(s) && s.chunks != []
    ensures Top(s) % 8 == 0
  {
    var c := s.chunks[|s.chunks| - 1];
    assert ChunkOk(s, c);
    hide SpaceOk;
    ParsesAligned(s.mem, c.base, 0, c.used);
  }

  lemma {:induction false} RoomClear(s: Space, size: nat)
    requires SpaceOk(s) && HasRoom(s, size)
    ensures Clear(s, Top(s), Top(s) + size)
  {
    var n := |s.chunks| - 1;
    hide Parses, Walk;
    forall b | b in s.mem ensures b + s.mem[b].size <= Top(s) || Top(s) + size <= b {
      var k := ObjectChunk(s, b);
      assert k < n ==> Apart(s.chunks[k].base, s.chunks[n].base);
    }
  }

  lemma {:induction false} RoomUnused(s: Space, size: nat, x: nat)
    requires HasRoom(s, size) && x % 8 == 0 && Top(s) <= x && x + 8 <= Top(s) + size
    ensures Unused(s, x) && InSome(s, x)
  {
    assert UnusedIn(s.chunks[|s.chunks| - 1], x);
  }

  lemma {:induction false} ParsesAligned(mem: map<nat, Obj>, base: nat, i: nat, used: nat)
    requires Parses(mem, base, i, used) && i % 8 == 0
    ensures used % 8 == 0
    decreases used - i
  {
    if i < used {
      ParsesAligned(mem, base, i + mem[base + i].size, used);
    }
  }

  // ---------- a new array ----------

  // heapAlloc's header, then length, type and zeroed elements.
  function Initialised(ram: Ram, a: nat, length: nat, elemType: nat): Ram {
    (y: nat) => InitialWord(ram, a, length, elemType, y)
  }

  function InitialWord(ram: Ram, a: nat, length: nat, elemType: nat, y: nat): nat {
    if y == a then HeaderWord(ArraySize(length), ObjArray, false)
    else if y == a + 8 then 0
    else if y == FieldsAddr(a) then FieldsWord(elemType, length)
    else if ElemAddr(a, 0) <= y < ElemAddr(a, length) && (y - a) % 8 == 0 then 0
    else ram(y)
  }

  lemma {:induction false} InitialisedStored(ram: Ram, a: nat, length: nat, elemType: nat, w0: Word, w1: Word)
    requires ram(WordAddr(a, 0)) == w0 && (length >= 1 ==> ram(WordAddr(a, 1)) == w1)
    ensures Stored(Initialised(ram, a, length, elemType), a, NewObj(ArrayWords(w0, w1, length, elemType)))
  {
    hide HeaderWord, FieldsWord, ArraySize;
    var ram', o := Initialised(ram, a, length, elemType), NewObj(ArrayWords(w0, w1, length, elemType));
    assert ram'(a) == InitialWord(ram, a, length, elemType, a) &&
           ram'(a + 8) == InitialWord(ram, a, length, elemType, a + 8);
    forall k | 0 <= k < |o.payload| ensures ram'(WordAddr(a, k)) == o.payload[k] {
      assert ram'(WordAddr(a, k)) == InitialWord(ram, a, length, elemType, WordAddr(a, k));
    }
  }

  // Behind the object, initialising stores what the model puts there.
  lemma {:induction false} InitialisedBehind(ram: Ram, stale: Stale, loose: map<nat, Word>, a: nat, length: nat,
                                             elemType: nat, w0: Word, w1: Word, x: nat)
    requires a % 8 == 0 && x % 8 == 0 && (x < a || a + ArraySize(length) <= x) && ram(x) == Content(stale, loose, x)
    ensures Initialised(ram, a, length, elemType)(x) ==
            Content(stale, Spill(loose, a, ArrayWords(w0, w1, length, elemType)), x)
  {
    hide HeaderWord, FieldsWord, ArraySize;
    ArraySizeExact(length);
    assert Initialised(ram, a, length, elemType)(x) == InitialWord(ram, a, length, elemType, x);
  }

  lemma {:induction false} InitialisedOutside(ram: Ram, a: nat, length: nat, elemType: nat)
    ensures SameOutside(ram, Initialised(ram, a, length, elemType), a, a + ArraySize(length) + 16)
  {
    hide HeaderWord, FieldsWord, ArraySize;
    ArraySizeExact(length);
    forall x: nat | x < a || a + ArraySize(length) + 16 <= x
      ensures Initialised(ram, a, length, elemType)(x) == ram(x)
    {
      assert Initialised(ram, a, length, elemType)(x) == InitialWord(ram, a, length, elemType, x);
    }
  }

  // Making an array decides nothing about tracing it: the source's test reads what stood in memory.
  lemma {:induction false} NewArraySourceTraced(ram: Ram, a: nat, length: nat, elemType: nat)
    requires ArraySize(length) <= CHUNK_SIZE
    ensures var ram' := Initialised(ram, a, length, elemType);
            (SourceTraces(ram', a) <==> ram(TraceAddr(a)) % TWO32 == TAG_POINTER) &&
            |SourceScans(ram', a)| == ram(TraceAddr(a)) / TWO32
  {
    HeaderKind(ArraySize(length), ObjArray, false);
    hide HeaderWord, FieldsWord, ArraySize;
    var ram' := Initialised(ram, a, length, elemType);
    assert ram'(a) == InitialWord(ram, a, length, elemType, a);
    assert ram'(TraceAddr(a)) == InitialWord(ram, a, length, elemType, TraceAddr(a));
  }

  // No object begins in the two words from x on.
  predicate NoneBegins(s: Space, x: nat) {
    x !in s.mem && x + 8 !in s.mem
  }

  // The memory after making the array at a, where the heap goes from m to m'.
  function AfterNew(ram: Ram, stale: Stale, m: Mem, m': Mem, a: nat, length: nat, elemType: nat): Ram {
    Initialised(Grown(ram, stale, m.active, m'.active), a, length, elemType)
  }

  // The parts of making an array: the space with room, and what stood there.
  lemma {:induction false} NewArrayParts(malloc: Malloc, stale: Stale, m: Mem, length: nat, elemType: nat, m': Mem,
                                         a: nat) returns (r: Space)
    requires NewArray(malloc, stale, m, length, elemType) == Some((m', a))
    ensures Reserve(malloc, Bases(m.idle), m.active, ArraySize(length)) == Some(r) && r.chunks != [] && a == Top(r)
    ensures var ws := ArrayWords(Content(stale, m.loose, WordAddr(a, 0)), Content(stale, m.loose, WordAddr(a, 1)),
                                 length, elemType);
            m'.active == Put(r, NewObj(ws)) && m'.loose == Spill(m.loose, a, ws) && NewObj(ws).size == ArraySize(length)
  {
    hide Content, ArraySize, FieldsWord;
    var ws := NewWords(malloc, stale, m, length, elemType);
    r := Reserve(malloc, Bases(m.idle), m.active, NewObj(ws).size).value;
  }

  lemma {:induction false} GrownPut(ram: Ram, stale: Stale, s: Space, r: Space, o: Obj)
    requires r.chunks != []
    ensures Grown(ram, stale, s, Put(r, o)) == Grown(ram, stale, s, r)
  {
  }

  // Making an array is adding its record, as long as none of the older objects begins in the two
  // words behind it; with two elements or more it is so exactly then.  What lies behind objects is
  // as the model says in any case.
  lemma {:induction false} NewArrayPictured(ram: Ram, malloc: Malloc, stale: Stale, m: Mem, length: nat, elemType: nat,
                                            m': Mem, a: nat)
    requires HeapOk(m) && Pictured(ram, stale, m) && Owned(m.loose, m.active) && ArraySize(length) <= CHUNK_SIZE
    requires NewArray(malloc, stale, m, length, elemType) == Some((m', a))
    ensures var ram', end := AfterNew(ram, stale, m, m', a, length, elemType), a + ArraySize(length);
            Behind(ram', stale, m'.loose, m'.active) &&
            (NoneBegins(m.active, end) ==> Recorded(ram', m'.active)) &&
            (length >= 2 && Recorded(ram', m'.active) ==> NoneBegins(m.active, end))
  {
    var r := NewArrayParts(malloc, stale, m, length, elemType, m', a);
    var ws := ArrayWords(Content(stale, m.loose, WordAddr(a, 0)), Content(stale, m.loose, WordAddr(a, 1)), length,
                         elemType);
    hide *;
    HeapFull(m);
    RoomReserved(malloc, m, length, r);
    PicturedParts(ram, stale, m);
    ReservePictured(ram, stale, m.loose, malloc, Bases(m.idle), m.active, ArraySize(length), r);
    GrownPut(ram, stale, m.active, r, NewObj(ws));
    AfterNewIs(ram, stale, m, m', a, length, elemType);
    PutArrayPictured(Grown(ram, stale, m.active, r), stale, m.loose, r, length, elemType, ws, a, m'.active,
                     AfterNew(ram, stale, m, m', a, length, elemType));
    SameBegins(r, m.active, a + ArraySize(length));
  }

  lemma {:induction false} PicturedParts(ram: Ram, stale: Stale, m: Mem)
    requires Pictured(ram, stale, m)
    ensures Recorded(ram, m.active) && Behind(ram, stale, m.loose, m.active)
  {
  }

  lemma {:induction false} AfterNewIs(ram: Ram, stale: Stale, m: Mem, m': Mem, a: nat, length: nat, elemType: nat)
    requires m'.active.chunks != []
    ensures AfterNew(ram, stale, m, m', a, length, elemType) ==
            Initialised(Grown(ram, stale, m.active, m'.active), a, length, elemType)
  {
  }

  lemma {:induction false} SameBegins(s: Space, t: Space, x: nat)
    requires s.mem == t.mem
    ensures NoneBegins(s, x) == NoneBegins(t, x)
  {
  }

  // The space an array is put into is well-formed and has room for it.
  lemma {:induction false} RoomReserved(malloc: Malloc, m: Mem, length: nat, r: Space)
    requires HeapOk(m) && ArraySize(length) <= CHUNK_SIZE
    requires Reserve(malloc, Bases(m.idle), m.active, ArraySize(length)) == Some(r)
    ensures SpaceOk(r) && HasRoom(r, ArraySize(length)) && Full(r) && r.mem == m.active.mem
  {
    HeapFull(m);
    ArraySizeExact(length);
    hide HeapOk, SpaceOk, ArraySize;
    ReserveOk(malloc, Bases(m.idle), m.active, ArraySize(length));
  }

  lemma {:induction false} PutArrayPictured(ram: Ram, stale: Stale, loose: map<nat, Word>, s: Space, length: nat,
                                            elemType: nat, ws: seq<Word>, a: nat, t: Space, ram': Ram)
    requires SpaceOk(s) && Full(s) && HasRoom(s, ArraySize(length)) && Recorded(ram, s) && Behind(ram, stale, loose, s)
    requires a == Top(s) && |ws| >= 3 && t == Put(s, NewObj(ws)) && ram' == Initialised(ram, a, length, elemType)
    requires ws == ArrayWords(Content(stale, loose, WordAddr(a, 0)), Content(stale, loose, WordAddr(a, 1)), length,
                              elemType)
    ensures Behind(ram', stale, Spill(loose, a, ws), t)
    ensures NoneBegins(s, a + ArraySize(length)) ==> Recorded(ram', t)
    ensures length >= 2 && Recorded(ram', t) ==> NoneBegins(s, a + ArraySize(length))
  {
    hide *;
    TopAligned(s, ArraySize(length));
    PutArrayBehind(ram, stale, loose, s, length, elemType, ws, a, t, ram');
    if NoneBegins(s, a + ArraySize(length)) {
      FirstWords(ram, stale, loose, s, length, a);
      PutArrayRecorded(ram, s, length, elemType, Content(stale, loose, WordAddr(a, 0)),
                       Content(stale, loose, WordAddr(a, 1)), NewObj(ws));
    }
    if length >= 2 && Recorded(ram', t) {
      NewSizePositive(ws);
      NothingBehind(ram, s, a, length, elemType, t, NewObj(ws));
    }
  }

  lemma {:induction false} NewSizePositive(ws: seq<Word>)
    requires |ws| >= 3
    ensures NewObj(ws).size > 0
  {
    ArraySizeExact(|ws| - 3);
  }

  lemma {:induction false} TopAligned(s: Space, size: nat)
    requires SpaceOk(s) && HasRoom(s, size)
    ensures s.chunks != [] && Top(s) % 8 == 0
  {
    RoomIsClear(s, size);
  }

  lemma {:induction false} PutArrayBehind(ram: Ram, stale: Stale, loose: map<nat, Word>, s: Space, length: nat,
                                          elemType: nat, ws: seq<Word>, a: nat, t: Space, ram': Ram)
    requires SpaceOk(s) && HasRoom(s, ArraySize(length)) && Behind(ram, stale, loose, s) && Top(s) % 8 == 0
    requires a == Top(s) && |ws| >= 3 && t == Put(s, NewObj(ws)) && ram' == Initialised(ram, a, length, elemType)
    requires ws == ArrayWords(Content(stale, loose, WordAddr(a, 0)), Content(stale, loose, WordAddr(a, 1)), length,
                              elemType)
    ensures Behind(ram', stale, Spill(loose, a, ws), t)
  {
    hide SpaceOk, FieldsWord, Content, Initialised, Spill, ArraySize, Put, Top, HasRoom, ArrayWords;
    var w0, w1 := Content(stale, loose, WordAddr(a, 0)), Content(stale, loose, WordAddr(a, 1));
    forall x | Unused(t, x) ensures ram'(x) == Content(stale, Spill(loose, a, ws), x) {
      PutUnused(s, NewObj(ws), x);
      InitialisedBehind(ram, stale, loose, a, length, elemType, w0, w1, x);
    }
  }

  lemma {:induction false} PutArrayRecorded(ram: Ram, s: Space, length: nat, elemType: nat, w0: Word, w1: Word, o: Obj)
    requires SpaceOk(s) && Full(s) && s.chunks != [] && HasRoom(s, ArraySize(length)) && Recorded(ram, s)
    requires ram(WordAddr(Top(s), 0)) == w0 && (length >= 1 ==> ram(WordAddr(Top(s), 1)) == w1)
    requires o == NewObj(ArrayWords(w0, w1, length, elemType)) && NoneBegins(s, Top(s) + ArraySize(length))
    ensures Recorded(Initialised(ram, Top(s), length, elemType), Put(s, o))
  {
    hide *;
    var a, end := Top(s), Top(s) + ArraySize(length);
    TopAligned(s, ArraySize(length));
    ArrayAligned(a, length);
    RoomIsClear(s, ArraySize(length));
    ClearFurther(s, a, end);
    InitialisedStored(ram, a, length, elemType, w0, w1);
    InitialisedOutside(ram, a, length, elemType);
    PutRecorded(ram, Initialised(ram, a, length, elemType), s, o, end + 16);
  }

  // The words from which a new array's first two are taken are free.
  lemma {:induction false} FirstWords(ram: Ram, stale: Stale, loose: map<nat, Word>, s: Space, length: nat, a: nat)
    requires SpaceOk(s) && HasRoom(s, ArraySize(length)) && Behind(ram, stale, loose, s) && a == Top(s)
    ensures ram(WordAddr(a, 0)) == Content(stale, loose, WordAddr(a, 0))
    ensures length >= 1 ==> ram(WordAddr(a, 1)) == Content(stale, loose, WordAddr(a, 1))
  {
    ArraySizeExact(length);
    hide SpaceOk, ArraySize, Unused, Content;
    RoomIsClear(s, ArraySize(length));
    assert Unused(s, WordAddr(a, 0));
    assert length >= 1 ==> Unused(s, WordAddr(a, 1));
  }

  lemma {:induction false} ArrayAligned(a: nat, length: nat)
    requires a % 8 == 0
    ensures (a + ArraySize(length)) % 8 == 0
  {
    ArraySizeExact(length);
    hide ArraySize;
  }

  lemma {:induction false} ClearFurther(s: Space, lo: nat, hi: nat)
    requires SpaceOk(s) && Clear(s, lo, hi) && lo % 8 == 0 && hi % 8 == 0 && NoneBegins(s, hi)
    ensures Clear(s, lo, hi + 16)
  {
    hide SpaceOk;
    forall b | b in s.mem ensures b + s.mem[b].size <= lo || hi + 16 <= b {
      ObjectAligned(s, b);
    }
  }

  lemma {:induction false} NothingBehind(ram: Ram, s: Space, a: nat, length: nat, elemType: nat, t: Space, o: Obj)
    requires Full(s) && s.chunks != [] && length >= 2 && t == Put(s, o) && o.size > 0
    requires Recorded(Initialised(ram, a, length, elemType), t)
    ensures NoneBegins(s, a + ArraySize(length))
  {
    hide *;
    ZeroBehind(ram, a, length, elemType);
    PutHeaders(Initialised(ram, a, length, elemType), s, t, o);
    BeginsNone(Initialised(ram, a, length, elemType), s, a, a + ArraySize(length));
  }

  lemma {:induction false} BeginsNone(ram: Ram, s: Space, a: nat, end: nat)
    requires ram(end) == 0 && ram(end + 8) == 0 && forall x :: x in s.mem ==> ram(x) > 0
    ensures NoneBegins(s, end)
  {
  }

  lemma {:induction false} PutHeaders(ram: Ram, s: Space, t: Space, o: Obj)
    requires Full(s) && s.chunks != [] && t == Put(s, o) && Recorded(ram, t) && o.size > 0
    ensures forall x :: x in s.mem ==> ram(x) > 0
  {
    hide Recorded;
    forall x | x in s.mem ensures ram(x) > 0 {
      HeaderNonZero(ram, t, x);
    }
  }

  lemma {:induction false} HeaderNonZero(ram: Ram, s: Space, a: nat)
    requires Recorded(ram, s) && a in s.mem && s.mem[a].size > 0
    ensures ram(a) > 0
  {
    assert Stored(ram, a, s.mem[a]);
  }

  lemma {:induction false} ZeroBehind(ram: Ram, a: nat, length: nat, elemType: nat)
    requires length >= 2
    ensures var end, ram' := a + ArraySize(length), Initialised(ram, a, length, elemType);
            ram'(end) == 0 && ram'(end + 8) == 0
  {
    ArraySizeExact(length);
    hide ArraySize, FieldsWord, HeaderWord;
    var end, ram' := a + ArraySize(length), Initialised(ram, a, length, elemType);
    assert end == ElemAddr(a, length - 2) && end + 8 == ElemAddr(a, length - 1);
    assert ram'(end) == InitialWord(ram, a, length, elemType, end) &&
           ram'(end + 8) == InitialWord(ram, a, length, elemType, end + 8);
  }

  // With two words to spare in its chunk, a new array has none of the older objects behind it, and
  // nothing is stored outside the chunks.
  lemma {:induction false} RoomBehind(malloc: Malloc, stale: Stale, m: Mem, length: nat, elemType: nat, m': Mem, a: nat)
    requires HeapOk(m) && ArraySize(length) <= CHUNK_SIZE && Owned(m.loose, m.active)
    requires NewArray(malloc, stale, m, length, elemType) == Some((m', a)) && Spare(m')
    ensures NoneBegins(m.active, a + ArraySize(length)) && Owned(m'.loose, m'.active)
  {
    var r := NewArrayParts(malloc, stale, m, length, elemType, m', a);
    var ws := ArrayWords(Content(stale, m.loose, WordAddr(a, 0)), Content(stale, m.loose, WordAddr(a, 1)), length,
                         elemType);
    assert HasRoom(r, ArraySize(length) + 16) by { SpareRoom(r, NewObj(ws), m'); }
    hide *;
    RoomReserved(malloc, m, length, r);
    RoomIsClear(r, ArraySize(length) + 16);
    ClearNone(r, a, a + ArraySize(length));
    SameBegins(r, m.active, a + ArraySize(length));
    SpillOwned(malloc, m.loose, m.active, Bases(m.idle), r, a, ws);
  }

  lemma {:induction false} SpareRoom(r: Space, o: Obj, m: Mem)
    requires r.chunks != [] && m.active == Put(r, o) && Spare(m)
    ensures HasRoom(r, o.size + 16)
  {
  }

  lemma {:induction false} ClearNone(s: Space, a: nat, end: nat)
    requires Full(s) && Clear(s, a, end + 16) && a <= end
    ensures NoneBegins(s, end)
  {
    forall b | b in s.mem ensures b != end && b != end + 8 {
      assert s.mem[b].size >= 16;
    }
  }

  // Sixteen bytes are left in the chunk last taken.
  predicate Spare(m: Mem) {
    m.active.chunks != [] && Last(m.active).used + 16 <= CHUNK_SIZE
  }

  lemma {:induction false} SpillOwned(malloc: Malloc, loose: map<nat, Word>, s: Space, others: set<nat>, r: Space,
                                      a: nat, ws: seq<Word>)
    requires Owned(loose, s) && |ws| >= 3 && Reserve(malloc, others, s, ArraySize(|ws| - 3)) == Some(r) && a == Top(r)
    requires HasRoom(r, ArraySize(|ws| - 3) + 16)
    ensures Owned(Spill(loose, a, ws), Put(r, NewObj(ws)))
  {
    ArraySizeExact(|ws| - 3);
    hide ArraySize;
    var t, n := Put(r, NewObj(ws)), |r.chunks| - 1;
    forall x | x in Spill(loose, a, ws) ensures InSome(t, x) {
      if x in loose {
        assert InSome(s, x);
        var k :| 0 <= k < |s.chunks| && s.chunks[k].base <= x < s.chunks[k].base + CHUNK_SIZE;
        assert t.chunks[k].base == s.chunks[k].base;
      } else {
        assert t.chunks[n].base <= x < t.chunks[n].base + CHUNK_SIZE;
      }
    }
  }

  // ---------- moving objects ----------

  // heapAlloc's header at b, then memcpy of size - sizeof(objHeader) bytes.
  function Copied(ram: Ram, a: nat, o: Obj, b: nat): Ram {
    (y: nat) => CopiedWord(ram, a, o, b, y)
  }

  function CopiedWord(ram: Ram, a: nat, o: Obj, b: nat, y: nat): nat {
    if y == b then HeaderWord(Copy(o).size, o.kind, false)
    else if y == b + 8 then 0
    else if b + OBJ_HEADER <= y < b + o.size then ram(y - b + a)
    else ram(y)
  }

  lemma {:induction false} CopyStored(ram: Ram, a: nat, o: Obj, b: nat)
    requires Stored(ram, a, o) && o.size == OBJ_HEADER + 8 * |o.payload|
    ensures Stored(Copied(ram, a, o, b), b, Copy(o))
  {
    hide HeaderWord, Align;
    var ram', q := Copied(ram, a, o, b), Copy(o);
    assert ram'(b) == CopiedWord(ram, a, o, b, b) && ram'(b + 8) == CopiedWord(ram, a, o, b, b + 8);
    forall k | 0 <= k < |q.payload| ensures ram'(WordAddr(b, k)) == q.payload[k] {
      assert ram'(WordAddr(b, k)) == CopiedWord(ram, a, o, b, WordAddr(b, k));
      assert WordAddr(b, k) - b + a == WordAddr(a, k);
    }
  }

  lemma {:induction false} CopiedOutside(ram: Ram, a: nat, o: Obj, b: nat)
    requires o.size >= OBJ_HEADER
    ensures SameOutside(ram, Copied(ram, a, o, b), b, b + o.size)
  {
    hide HeaderWord, Align;
    forall x: nat | x < b || b + o.size <= x ensures Copied(ram, a, o, b)(x) == ram(x) {
      assert Copied(ram, a, o, b)(x) == CopiedWord(ram, a, o, b, x);
    }
  }

  // The last two elements are not among the bytes moved: there stands what stood behind the copy
  // before.
  lemma {:induction false} LastElementsAreLeft(ram: Ram, a: nat, o: Obj, b: nat, j: nat)
    requires o.size == OBJ_HEADER + 8 * |o.payload| && j >= |o.payload|
    ensures Copied(ram, a, o, b)(WordAddr(b, j)) == ram(WordAddr(b, j))
  {
    hide HeaderWord, Align;
    assert Copied(ram, a, o, b)(WordAddr(b, j)) == CopiedWord(ram, a, o, b, WordAddr(b, j));
  }

  // The memory while the marked objects of `ws` are moved into a space: a chunk from malloc where
  // one is needed, then header and bytes.
  function MovedRam(ram: Ram, malloc: Malloc, stale: Stale, from: Space, marked: set<int>, ws: seq<nat>, to: Space): Ram
    requires forall a :: a in ws ==> a in from.mem
  {
    if ws == [] then ram
    else
      var n := |ws| - 1;
      var before := MovedRam(ram, malloc, stale, from, marked, ws[..n], to);
      var r := Evacuate(malloc, from, marked, ws[..n], to);
      if r.None? || ws[n] !in marked then before
      else
        var o := from.mem[ws[n]];
        var p := Place(malloc, Bases(from), r.value.0, Copy(o));
        if p.None? then before else Copied(Grown(before, stale, r.value.0, p.value.0), ws[n], o, p.value.1)
  }

  // Old objects still stand where they were, and the new space is in memory as far as it is filled.
  ghost predicate Moving(ram: Ram, stale: Stale, from: Space, to: Space) {
    Recorded(ram, from) && Recorded(ram, to) && Behind(ram, stale, map[], to) && Full(to) && Owned(map[], to)
  }

  // Moving one object.
  lemma {:induction false} MoveOne(ram: Ram, malloc: Malloc, stale: Stale, from: Space, to: Space, a: nat, to': Space,
                                   b: nat)
    requires SpaceOk(from) && Full(from) && SpaceOk(to) && AwayFrom(Bases(from), to) && Moving(ram, stale, from, to)
    requires a in from.mem && Place(malloc, Bases(from), to, Copy(from.mem[a])) == Some((to', b))
    ensures Moving(Copied(Grown(ram, stale, to, to'), a, from.mem[a], b), stale, from, to')
  {
    var o := from.mem[a];
    CopyFull(o);
    var r := Reserve(malloc, Bases(from), to, o.size).value;
    assert to' == Put(r, Copy(o)) && b == Top(r);
    hide *;
    MovingParts(ram, stale, from, to);
    ReserveOk(malloc, Bases(from), to, o.size);
    SameFull(to, r);
    ReservePictured(ram, stale, map[], malloc, Bases(from), to, o.size, r);
    ReserveBeside(ram, stale, malloc, from, to, o.size, r);
    GrownPut(ram, stale, to, r, Copy(o));
    ReserveAway(malloc, Bases(from), to, o.size, r);
    PutCopy(Grown(ram, stale, to, r), stale, from, r, a, to');
  }

  lemma {:induction false} CopyFull(o: Obj)
    requires GoodSize(o.size)
    ensures Copy(o).size == o.size && Copy(o).payload == o.payload
  {
    CopySize(o);
  }

  lemma {:induction false} MovingParts(ram: Ram, stale: Stale, from: Space, to: Space)
    requires Moving(ram, stale, from, to)
    ensures Recorded(ram, from) && Recorded(ram, to) && Behind(ram, stale, map[], to) && Full(to) && Owned(map[], to)
  {
  }

  lemma {:induction false} SameFull(s: Space, t: Space)
    requires Full(s) && s.mem == t.mem
    ensures Full(t)
  {
  }

  lemma {:induction false} ReserveAway(malloc: Malloc, others: set<nat>, s: Space, size: nat, r: Space)
    requires AwayFrom(others, s) && Reserve(malloc, others, s, size) == Some(r)
    ensures AwayFrom(others, r)
  {
    forall k, b | 0 <= k < |r.chunks| && b in others ensures Apart(r.chunks[k].base, b) {
      if k == |s.chunks| {
        assert b in others + Bases(s);
      }
    }
  }

  // Copying into the room at the end of a space.
  lemma {:induction false} PutCopy(ram: Ram, stale: Stale, from: Space, s: Space, a: nat, t: Space)
    requires SpaceOk(from) && Full(from) && SpaceOk(s) && Full(s) && AwayFrom(Bases(from), s)
    requires Recorded(ram, from) && Recorded(ram, s) && Behind(ram, stale, map[], s)
    requires a in from.mem && HasRoom(s, from.mem[a].size) && t == Put(s, Copy(from.mem[a]))
    ensures Moving(Copied(ram, a, from.mem[a], Top(s)), stale, from, t)
  {
    var o, b := from.mem[a], Top(s);
    var ram', q := Copied(ram, a, o, b), Copy(o);
    CopyFull(o);
    assert Stored(ram, a, o);
    hide SpaceOk, AwayFrom, HasRoom, Stored, Copied, Unused, Put, Top, Copy;
    CopyStored(ram, a, o, b);
    CopiedOutside(ram, a, o, b);
    RoomIsClear(s, o.size);
    PutRecorded(ram, ram', s, q, b + o.size);
    PutFull(s, q);
    forall x | Unused(t, x) ensures ram'(x) == Content(stale, map[], x) {
      PutUnused(s, q, x);
    }
    RoomAway(from, s, o.size);
    BesideRecorded(ram, ram', from, b, b + o.size);
  }

  lemma {:induction false} PutFull(s: Space, o: Obj)
    requires Full(s) && s.chunks != [] && GoodSize(o.size) && o.size == OBJ_HEADER + 8 * |o.payload|
    ensures Full(Put(s, o))
  {
  }

  lemma {:induction false} RoomAway(from: Space, s: Space, size: nat)
    requires SpaceOk(from) && SpaceOk(s) && AwayFrom(Bases(from), s) && HasRoom(s, size)
    ensures Clear(from, Top(s), Top(s) + size)
  {
    hide Parses, Walk;
    forall c | c in from.mem ensures c + from.mem[c].size <= Top(s) || Top(s) + size <= c {
      var k := ObjectChunk(from, c);
      assert from.chunks[k].base in Bases(from);
      assert Apart(s.chunks[|s.chunks| - 1].base, from.chunks[k].base);
    }
  }

  lemma {:induction false} BesideRecorded(ram: Ram, ram': Ram, s: Space, lo: nat, hi: nat)
    requires Full(s) && Recorded(ram, s) && SameOutside(ram, ram', lo, hi) && Clear(s, lo, hi)
    ensures Recorded(ram', s)
  {
    hide Stored;
    forall c | c in s.mem ensures Stored(ram', c, s.mem[c]) {
      StoredFrame(ram, ram', c, s.mem[c]);
    }
  }

  lemma {:induction false} MovedPictured(ram: Ram, malloc: Malloc, stale: Stale, from: Space, marked: set<int>,
                                         ws: seq<nat>)
    requires SpaceOk(from) && Full(from) && Recorded(ram, from) && Distinct(ws) && forall a :: a in ws ==> a in from.mem
    requires Evacuate(malloc, from, marked, ws, EMPTY).Some?
    ensures Moving(MovedRam(ram, malloc, stale, from, marked, ws, EMPTY), stale, from,
                   Evacuate(malloc, from, marked, ws, EMPTY).value.0)
  {
    hide Moving, SpaceOk, AwayFrom, Place, Copy, Distinct, Full, Recorded, Copied, Grown;
    if ws == [] {
      NothingMoved(ram, stale, from);
    } else {
      var n := |ws| - 1;
      var front, a := ws[..n], ws[n];
      DistinctSnoc(ws);
      MovedPictured(ram, malloc, stale, from, marked, front);
      if a in marked {
        EmptyWalk(Bases(from));
        EvacuateOk(malloc, from, marked, front, EMPTY);
        var (to, fwd) := Evacuate(malloc, from, marked, front, EMPTY).value;
        var (to', b) := Place(malloc, Bases(from), to, Copy(from.mem[a])).value;
        MoveOne(MovedRam(ram, malloc, stale, from, marked, front, EMPTY), malloc, stale, from, to, a, to', b);
      }
    }
  }

  lemma {:induction false} NothingMoved(ram: Ram, stale: Stale, from: Space)
    requires Recorded(ram, from)
    ensures Moving(ram, stale, from, EMPTY)
  {
  }

  // The memory after a collection.
  function CollectedRam(ram: Ram, malloc: Malloc, stale: Stale, m: Mem, marked: set<int>): Ram {
    WalkFindsObjects(m.active, |m.active.chunks|);
    MovedRam(ram, malloc, stale, m.active, marked, Walk(m.active), m.idle)
  }

  // Moving the bytes of all marked objects is a collection of the heap, whichever are marked.
  lemma {:induction false} CollectPictured(ram: Ram, malloc: Malloc, stale: Stale, m: Mem, marked: set<int>)
    requires HeapOk(m) && Pictured(ram, stale, m) && Collect(malloc, m, marked).Some?
    ensures var m' := Collect(malloc, m, marked).value.0;
            Pictured(CollectedRam(ram, malloc, stale, m, marked), stale, m') && Owned(m'.loose, m'.active)
  {
    HeapFull(m);
    WalkExact(m.active);
    hide SpaceOk, Walk, Distinct, Evacuate, MovedRam, Recorded, Full, Fitted, WalkCovers;
    MovedPictured(ram, malloc, stale, m.active, marked, Walk(m.active));
  }

  // ---------- every sequence of heap operations ----------

  // The memory after one operation's stores.
  function AfterOp(ram: Ram, malloc: Malloc, stale: Stale, m: Mem, op: HeapOp): Ram {
    match op
    case OpNew(length, elemType) =>
      var r := NewArray(malloc, stale, m, length, elemType);
      if r.None? then ram else AfterNew(ram, stale, m, r.value.0, r.value.1, length, elemType)
    case OpStore(a, j, w) => Store(ram, WordAddr(a, j), w)
    case OpCollect(marked) => CollectedRam(ram, malloc, stale, m, marked)
  }

  lemma {:induction false} AfterOpPictured(ram: Ram, malloc: Malloc, stale: Stale, m: Mem, op: HeapOp)
    requires HeapOk(m) && Pictured(ram, stale, m) && Owned(m.loose, m.active)
    requires ApplyOp(malloc, stale, m, op).Some? && (op.OpNew? ==> Spare(ApplyOp(malloc, stale, m, op).value))
    ensures var m' := ApplyOp(malloc, stale, m, op).value;
            Pictured(AfterOp(ram, malloc, stale, m, op), stale, m') && Owned(m'.loose, m'.active)
  {
    hide HeapOk, Recorded, Behind, Owned, NewArray, Collect, AfterNew, CollectedRam, Store, StoreWord, ArraySize, Spare,
      NoneBegins, Reachable;
    match op
    case OpNew(length, elemType) =>
      var (m', a) := NewArray(malloc, stale, m, length, elemType).value;
      RoomBehind(malloc, stale, m, length, elemType, m', a);
      NewArrayPictured(ram, malloc, stale, m, length, elemType, m', a);
    case OpStore(a, j, w) => StorePictured(ram, stale, m, a, j, w);
    case OpCollect(marked) => CollectPictured(ram, malloc, stale, m, marked);
  }

  // The memory after the first k operations of a run.
  function RamAt(ram: Ram, malloc: Malloc, stale: Stale, m: Mem, ops: seq<HeapOp>, ms: seq<Mem>, k: nat): Ram
    requires k <= |ops| == |ms|
  {
    if k == 0 then ram
    else AfterOp(RamAt(ram, malloc, stale, m, ops, ms, k - 1), malloc, stale, HeapAt(m, ms, k - 1), ops[k - 1])
  }

  // At every moment of every run of allocations, stores and collections the heap is what memory
  // holds, provided no array was made in the last two words of a chunk.
  lemma {:induction false} HeapIsPictured(ram: Ram, malloc: Malloc, stale: Stale, m: Mem, ops: seq<HeapOp>,
                                          ms: seq<Mem>, k: nat)
    requires HeapOk(m) && Pictured(ram, stale, m) && Owned(m.loose, m.active)
    requires HeapRun(malloc, stale, m, ops, ms) && k <= |ms|
    requires forall j :: 0 <= j < k && ops[j].OpNew? ==> Spare(ms[j])
    ensures var h := HeapAt(m, ms, k);
            Pictured(RamAt(ram, malloc, stale, m, ops, ms, k), stale, h) && Owned(h.loose, h.active)
  {
    hide HeapOk, Pictured, ApplyOp, AfterOp, Owned, Spare;
    if k > 0 {
      HeapIsPictured(ram, malloc, stale, m, ops, ms, k - 1);
      HeapInvariant(malloc, stale, m, ops, ms, k - 1);
      AfterOpPictured(RamAt(ram, malloc, stale, m, ops, ms, k - 1), malloc, stale, HeapAt(m, ms, k - 1), ops[k - 1]);
    }
  }

  // Any memory pictures the empty heap.
  lemma {:induction false} NoHeapPictured(ram: Ram, stale: Stale)
    ensures Pictured(ram, stale, NO_HEAP) && Owned(NO_HEAP.loose, NO_HEAP.active)
  {
  }
}
