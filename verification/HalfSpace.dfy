// The heap record and the functions that change it in place (src/vm/Heap.h, src/vm/Heap.cpp).
module HalfSpace {
  import opened Words
  import opened Wrappers
  import opened Space
  import opened Collector
  import opened HeapOps

  class Heap {
    var chunks: seq<Chunk>
    var mem: map<nat, Obj>
    var loose: map<nat, Word>
    var totalAllocated: nat
    const max: nat

    constructor (limit: nat)
      ensures Valid() && View() == EMPTY && loose == map[] && max == limit
    {
      chunks, mem, loose, totalAllocated := [], map[], map[], 0;
      max := limit;
    }

    function View(): Space
      reads this
    {
      Space(chunks, mem)
    }

    // totalAllocated is what the chunks have in use.
    ghost predicate Valid()
      reads `chunks, `totalAllocated
    {
      totalAllocated == Used(Space(chunks, map[]))
    }

    // False when memory is exhausted.
    method AllocNewChunk(malloc: Malloc, others: set<nat>) returns (ok: bool)
      modifies `chunks
      ensures var b := malloc(others + Bases(old(View())));
              ok == b.Some? && chunks == if ok then old(chunks) + [Chunk(b.value, 0)] else old(chunks)
    {
      var b := malloc(others + Bases(View()));
      ok := b.Some?;
      if ok {
        chunks := chunks + [Chunk(b.value, 0)];
      }
    }

    // A last chunk with room for `total` bytes; false when memory is exhausted.
    method EnsureRoom(malloc: Malloc, others: set<nat>, total: nat) returns (ok: bool)
      modifies `chunks
      ensures if ok then Reserve(malloc, others, old(View()), total) == Some(View())
              else Reserve(malloc, others, old(View()), total) == None
    {
      ok := true;
      if chunks == [] || chunks[|chunks| - 1].used + total > CHUNK_SIZE {
        ok := AllocNewChunk(malloc, others);
      }
    }

    // The address of a new object whose payload still holds what memory held; None: bad_alloc.
    method HeapAlloc(malloc: Malloc, stale: Stale, others: set<nat>, size: nat, kind: Kind) returns (r: Option<nat>)
      requires Valid() && GoodSize(Align(OBJ_HEADER + size))
      modifies `chunks, `mem, `totalAllocated
      ensures var total := Align(OBJ_HEADER + size);
              var a := Spot(malloc, others, old(View()), total);
              var p := Place(malloc, others, old(View()), Blank(stale, loose, a, total, kind));
              if p.None? then r == None else Valid() && View() == p.value.0 && r == Some(a) && a == p.value.1
    {
      hide Place, GoodSize, Reserve, Used, WordAddr;
      var total := Align(OBJ_HEADER + size);
      hide Used, Blank, Place, Reserve, Spot;
      ghost var s := View();
      var ok := EnsureRoom(malloc, others, total);
      if !ok {
        NoPlace(malloc, others, s, Blank(stale, loose, Spot(malloc, others, s, total), total, kind));
        return None;
      }
      ghost var reserved := View();
      var c := chunks[|chunks| - 1];
      var a := c.base + c.used;
      var o := Blank(stale, loose, a, total, kind);
      mem := mem[a := o];
      chunks := chunks[|chunks| - 1 := c.(used := c.used + total)];
      totalAllocated := totalAllocated + total;
      assert View() == Put(reserved, o) && a == Top(reserved);
      hide Put, Top;
      Placed(malloc, others, s, reserved, o);
      return Some(a);
    }

    // memcpy into the payload
    method WritePayload(a: nat, payload: seq<Word>)
      requires a in mem
      modifies `mem
      ensures mem == old(mem)[a := old(mem)[a].(payload := payload)]
    {
      mem := mem[a := mem[a].(payload := payload)];
    }

    // One aligned store of the object at a, into its payload or behind it.
    method Store(a: nat, j: nat, w: Word)
      requires a in mem
      modifies `mem, `loose
      ensures if j < |old(mem)[a].payload| then
                mem == old(mem)[a := old(mem)[a].(payload := old(mem)[a].payload[j := w])] && loose == old(loose)
              else mem == old(mem) && loose == old(loose)[WordAddr(a, j) := w]
    {
      if j < |mem[a].payload| {
        mem := mem[a := mem[a].(payload := mem[a].payload[j := w])];
      } else {
        loose := loose[WordAddr(a, j) := w];
      }
    }

    // One aligned load.
    method Load(a: nat, j: nat) returns (w: Word)
      requires a in mem && (j < |mem[a].payload| || WordAddr(a, j) in loose)
      ensures w == if j < |mem[a].payload| then mem[a].payload[j] else loose[WordAddr(a, j)]
    {
      w := if j < |mem[a].payload| then mem[a].payload[j] else loose[WordAddr(a, j)];
    }

    // memset of n words
    method Clear(a: nat, from: nat, n: nat)
      requires a in mem
      modifies `mem, `loose
      ensures (mem, loose) == Cleared(old(mem), old(loose), a, from, n)
    {
      for k := 0 to n
        invariant a in mem && (mem, loose) == Cleared(old(mem), old(loose), a, from, k)
      {
        Store(a, from + k, 0);
      }
    }

    method FreeHeap()
      modifies this
      ensures Valid() && View() == EMPTY && loose == map[]
    {
      chunks, mem, loose, totalAllocated := [], map[], map[], 0;
    }

    // Header addresses in walking order.
    method GetAllObjects() returns (objects: seq<nat>)
      requires SpaceOk(View())
      ensures objects == Walk(View())
    {
      hide WalkChunk, Parses;
      objects := [];
      for k := 0 to |chunks|
        invariant objects == WalkTo(View(), k)
      {
        assert ChunkOk(View(), chunks[k]);
        var c, i := chunks[k], 0;
        while i < c.used
          invariant i <= c.used && Parses(mem, c.base, i, c.used)
          invariant objects + WalkChunk(mem, c.base, i, c.used) == WalkTo(View(), k + 1)
          decreases c.used - i
        {
          WalkStep(mem, c.base, i, c.used);
          var a := c.base + i;
          Regrouped(objects, a, WalkChunk(mem, c.base, i + mem[a].size, c.used));
          objects := objects + [a];
          i := i + mem[a].size;
        }
        WalkEnd(mem, c.base, c.used);
      }
    }
  }

  // An object with its header written and its payload as memory holds it.
  function Blank(stale: Stale, loose: map<nat, Word>, a: nat, total: nat, kind: Kind): (o: Obj)
    requires total >= OBJ_HEADER
    ensures o.size == total
  {
    Obj(total, kind, false, 0, Contents(stale, loose, WordAddr(a, 0), (total - OBJ_HEADER) / 8))
  }

  lemma {:induction false} NoPlace(malloc: Malloc, others: set<nat>, s: Space, o: Obj)
    requires Reserve(malloc, others, s, o.size) == None
    ensures Place(malloc, others, s, o) == None
  {
  }

  lemma {:induction false} Placed(malloc: Malloc, others: set<nat>, s: Space, reserved: Space, o: Obj)
    requires Reserve(malloc, others, s, o.size) == Some(reserved) && reserved.chunks != [] && GoodSize(o.size)
    ensures Spot(malloc, others, s, o.size) == Top(reserved)
    ensures Place(malloc, others, s, o) == Some((Put(reserved, o), Top(reserved)))
    ensures Used(Space(Put(reserved, o).chunks, map[])) == Used(Space(s.chunks, map[])) + o.size
  {
    PlaceExtent(malloc, others, s, o);
    UsedOfMem(s, Space(s.chunks, map[]));
    UsedOfMem(Put(reserved, o), Space(Put(reserved, o).chunks, map[]));
    hide Reserve, Used, ExtentOf, FitStep, Put;
  }

  lemma {:induction false} UsedOfMem(s: Space, t: Space)
    requires s.chunks == t.chunks
    ensures Used(s) == Used(t)
  {
    UsedPrefix(s, t, |s.chunks|);
  }

  lemma {:induction false} WalkStep(mem: map<nat, Obj>, base: nat, i: nat, used: nat)
    requires Parses(mem, base, i, used) && i < used
    ensures base + i in mem && GoodSize(mem[base + i].size) && i + mem[base + i].size <= used
    ensures Parses(mem, base, i + mem[base + i].size, used)
    ensures WalkChunk(mem, base, i, used) == [base + i] + WalkChunk(mem, base, i + mem[base + i].size, used)
  {
    WalkRange(mem, base, i, used);
    assert base + i in WalkChunk(mem, base, i, used);
  }

  lemma {:induction false} WalkEnd(mem: map<nat, Obj>, base: nat, used: nat)
    ensures WalkChunk(mem, base, used, used) == []
  {
  }

  lemma {:induction false} Regrouped(u: seq<nat>, a: nat, v: seq<nat>)
    ensures u + ([a] + v) == u + [a] + v
  {
  }

  // n words zeroed one after the other.
  function Cleared(mem: map<nat, Obj>, loose: map<nat, Word>, a: nat, from: nat, n: nat)
    : (r: (map<nat, Obj>, map<nat, Word>))
    requires a in mem
    ensures a in r.0
  {
    if n == 0 then (mem, loose)
    else
      var (m, l) := Cleared(mem, loose, a, from, n - 1);
      var j := from + n - 1;
      if j < |m[a].payload| then (m[a := m[a].(payload := m[a].payload[j := 0])], l)
      else (m, l[WordAddr(a, j) := 0])
  }
}
