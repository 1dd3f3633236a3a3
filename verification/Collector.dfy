// The two-space collector as a function of the heap and the roots (src/vm/Heap.cpp:85-150).
module Collector {
  import opened Words
  import opened Wrappers
  import opened Space

  // The half-space in use, the other one, and what has been stored behind the objects of the one
  // in use: words by address, meaningful where no object lies.
  datatype Mem = Mem(active: Space, idle: Space, loose: map<nat, Word>)

  const NO_HEAP: Mem := Mem(EMPTY, EMPTY, map[])

  // ---------- pointers ----------

  // decodePointer(w) stepped back over the header.
  function HeaderOf(w: Word): int {
    DecodePointer(w) - 16
  }

  function PointerTo(a: nat): Word {
    EncodePointer(a + 16)
  }

  lemma {:induction false} PointerRoundTrip(a: nat)
    requires a + 16 < 0x1_0000_0000_0000
    ensures IsPointer(PointerTo(a)) && HeaderOf(PointerTo(a)) == a
    ensures PointerTo(a) == 0x7FF2_0000_0000_0000 + a + 16
  {
    BoxingRoundTrip(0, a + 16, false);
    BoxedWords(0, a + 16, false);
  }

  // ---------- marking ----------

  function Named(ws: seq<Word>): set<int> {
    set i | 0 <= i < |ws| && IsPointer(ws[i]) :: HeaderOf(ws[i])
  }

  // markObjects takes the object, not its payload, for the arrayObj: it looks for the element type
  // in the low half of the first payload word, for the length in the high half, and for the
  // elements from the second payload word on.
  predicate Traced(o: Obj) {
    o.kind == ObjArray && o.payload != [] && o.payload[0] % TWO32 == TAG_POINTER
  }

  // The words tracing looks at, as far as they lie in the object.
  function Scanned(o: Obj): (r: seq<Word>)
    ensures !Traced(o) ==> r == []
    ensures Traced(o) ==> |r| < |o.payload|
  {
    if !Traced(o) then []
    else if 1 + o.payload[0] / TWO32 <= |o.payload| then o.payload[1..1 + o.payload[0] / TWO32]
    else o.payload[1..]
  }

  // Tracing goes on behind the object.
  predicate Overruns(o: Obj) {
    Traced(o) && 1 + o.payload[0] / TWO32 > |o.payload|
  }

  function ElementNamed(s: Space): set<int> {
    set a, i | a in s.mem && 0 <= i < |Scanned(s.mem[a])| && IsPointer(Scanned(s.mem[a])[i]) ::
      HeaderOf(Scanned(s.mem[a])[i])
  }

  // What one pass over registers, live stack and all objects marks.
  function Marked(roots: seq<Word>, s: Space): set<int> {
    Named(roots) + ElementNamed(s)
  }

  // ---------- evacuation ----------

  // heapAlloc(h2, size - sizeof(header), type) and the payload copied over.
  function Copy(o: Obj): Obj {
    Obj(Align(OBJ_HEADER + (o.size - OBJ_HEADER)), o.kind, false, 0, o.payload)
  }

  // Visit the objects of `ws` in order, moving the marked ones into `to`; the map gives each
  // moved object's new address.
  function Evacuate(malloc: Malloc, from: Space, marked: set<int>, ws: seq<nat>,
                    to: Space): (r: Option<(Space, map<nat, nat>)>)
    requires forall a :: a in ws ==> a in from.mem
  {
    if ws == [] then Some((to, map[]))
    else
      var n := |ws| - 1;
      var before := Evacuate(malloc, from, marked, ws[..n], to);
      if before.None? || ws[n] !in marked then before
      else
        var p := Place(malloc, Bases(from), before.value.0, Copy(from.mem[ws[n]]));
        if p.None? then None else Some((p.value.0, before.value.1[ws[n] := p.value.1]))
  }

  function Filter(ws: seq<nat>, marked: set<int>): seq<nat> {
    if ws == [] then []
    else
      var n := |ws| - 1;
      if ws[n] in marked then Filter(ws[..n], marked) + [ws[n]] else Filter(ws[..n], marked)
  }

  function Images(fwd: map<nat, nat>, ws: seq<nat>): (r: seq<nat>)
    requires forall a :: a in ws ==> a in fwd
    ensures |r| == |ws|
  {
    seq(|ws|, k requires 0 <= k < |ws| => fwd[ws[k]])
  }

  // None when memory is exhausted.
  function Collect(malloc: Malloc, m: Mem, marked: set<int>): Option<(Mem, map<nat, nat>)> {
    WalkFindsObjects(m.active, |m.active.chunks|);
    var r := Evacuate(malloc, m.active, marked, Walk(m.active), m.idle);
    if r.None? then None else Some((Mem(r.value.0, EMPTY, map[]), r.value.1))
  }

  // A root slot after patching: *c = header(c)->forwarded.
  function Patch(fwd: map<nat, nat>, w: Word): Word {
    if IsPointer(w) && HeaderOf(w) in fwd then PointerTo(fwd[HeaderOf(w)]) else w
  }

  function PatchAll(fwd: map<nat, nat>, ws: seq<Word>): (r: seq<Word>)
    ensures |r| == |ws| && forall k :: 0 <= k < |r| ==> r[k] == Patch(fwd, ws[k])
  {
    seq(|ws|, k requires 0 <= k < |ws| => Patch(fwd, ws[k]))
  }

  // ---------- evacuation is a copy, one to one and in order ----------

  ghost predicate Injective(fwd: map<nat, nat>) {
    forall a, b :: a in fwd && b in fwd && fwd[a] == fwd[b] ==> a == b
  }

  // `to` holds what `start` held and, besides, exactly the copies of the objects in fwd.
  ghost predicate Evacuated(from: Space, start: Space, to: Space, fwd: map<nat, nat>) {
    Injective(fwd) &&
    (forall a :: a in fwd ==>
       a in from.mem && fwd[a] in to.mem && fwd[a] !in start.mem && to.mem[fwd[a]] == Copy(from.mem[a])) &&
    (forall b :: b in start.mem ==> b in to.mem && to.mem[b] == start.mem[b]) &&
    (forall b :: b in to.mem ==> b in start.mem || b in fwd.Values)
  }

  lemma {:induction false} CopySize(o: Obj)
    requires GoodSize(o.size)
    ensures Copy(o).size == o.size
  {
  }

  lemma {:induction false} FilterMembers(ws: seq<nat>, marked: set<int>)
    ensures forall a :: a in Filter(ws, marked) <==> a in ws && a in marked
  {
    if ws != [] {
      FilterMembers(ws[..|ws| - 1], marked);
      assert ws == ws[..|ws| - 1] + [ws[|ws| - 1]];
    }
  }

  lemma {:induction false} EvacuatedStep(from: Space, start: Space, to: Space, fwd: map<nat, nat>, a: nat, b: nat,
                                         to': Space)
    requires Evacuated(from, start, to, fwd) && a in from.mem && a !in fwd && b !in to.mem
    requires to'.mem == to.mem[b := Copy(from.mem[a])]
    ensures Evacuated(from, start, to', fwd[a := b])
  {
    var fwd' := fwd[a := b];
    forall c | c in to'.mem ensures c in start.mem || c in fwd'.Values {
      if c == b {
        assert fwd'[a] == b;
      } else if c !in start.mem {
        var d :| d in fwd && fwd[d] == c;
        assert fwd'[d] == c;
      }
    }
  }

  lemma {:induction false} ImagesStep(fwd: map<nat, nat>, ws: seq<nat>, a: nat, b: nat)
    requires (forall c :: c in ws ==> c in fwd) && a !in ws
    ensures Images(fwd[a := b], ws + [a]) == Images(fwd, ws) + [b]
  {
  }

  // The state after visiting `ws`: to-space, forwarding map, and the walk of the to-space.
  ghost predicate Moved(from: Space, start: Space, marked: set<int>, ws: seq<nat>, to: Space, fwd: map<nat, nat>) {
    SpaceOk(to) && AwayFrom(Bases(from), to) && Evacuated(from, start, to, fwd) &&
    (forall a :: a in fwd <==> a in Filter(ws, marked)) &&
    Walk(to) == Walk(start) + Images(fwd, Filter(ws, marked))
  }

  lemma {:induction false} MovedSkip(from: Space, start: Space, marked: set<int>, ws: seq<nat>, a: nat, to: Space,
                                     fwd: map<nat, nat>)
    requires Moved(from, start, marked, ws, to, fwd) && a !in marked
    ensures Moved(from, start, marked, ws + [a], to, fwd)
  {
    hide SpaceOk, AwayFrom, Evacuated, Walk;
    assert (ws + [a])[..|ws|] == ws;
    assert Filter(ws + [a], marked) == Filter(ws, marked);
  }

  lemma {:induction false} MovedPut(from: Space, start: Space, marked: set<int>, ws: seq<nat>, a: nat,
                                    to: Space, fwd: map<nat, nat>, to': Space, b: nat)
    requires Moved(from, start, marked, ws, to, fwd) && a in marked && a !in ws && a in from.mem
    requires SpaceOk(to') && AwayFrom(Bases(from), to') && b !in to.mem && to'.mem == to.mem[b := Copy(from.mem[a])] &&
             Walk(to') == Walk(to) + [b]
    ensures Moved(from, start, marked, ws + [a], to', fwd[a := b])
  {
    FilterMembers(ws, marked);
    assert a !in fwd;
    EvacuatedStep(from, start, to, fwd, a, b, to');
    FilterSnoc(ws, a, marked);
    var fs := Filter(ws, marked);
    hide SpaceOk, AwayFrom, Evacuated, Walk, Copy, Filter, Images;
    ImagesStep(fwd, fs, a, b);
    SeqAssoc(Walk(start), Images(fwd, fs), [b]);
  }

  lemma {:induction false} SeqAssoc<T>(u: seq<T>, v: seq<T>, w: seq<T>)
    ensures u + v + w == u + (v + w)
  {
  }

  lemma {:induction false} FilterSnoc(ws: seq<nat>, a: nat, marked: set<int>)
    ensures Filter(ws + [a], marked) == if a in marked then Filter(ws, marked) + [a] else Filter(ws, marked)
  {
    assert (ws + [a])[..|ws|] == ws;
  }

  lemma {:induction false} DistinctSnoc(ws: seq<nat>)
    requires ws != [] && Distinct(ws)
    ensures var front, a := ws[..|ws| - 1], ws[|ws| - 1];
            ws == front + [a] && Distinct(front) && a !in front && forall b :: b in front ==> b in ws
  {
  }

  lemma {:induction false} EvacuateOk(malloc: Malloc, from: Space, marked: set<int>, ws: seq<nat>, start: Space)
    requires SpaceOk(from) && SpaceOk(start) && AwayFrom(Bases(from), start) && Distinct(ws)
    requires forall a :: a in ws ==> a in from.mem
    requires Evacuate(malloc, from, marked, ws, start).Some?
    ensures var (to, fwd) := Evacuate(malloc, from, marked, ws, start).value; Moved(from, start, marked, ws, to, fwd)
  {
    if ws != [] {
      hide Moved, SpaceOk, AwayFrom, Place, Copy, Distinct;
      var n := |ws| - 1;
      var front, a := ws[..n], ws[n];
      DistinctSnoc(ws);
      EvacuateOk(malloc, from, marked, front, start);
      var (to, fwd) := Evacuate(malloc, from, marked, front, start).value;
      if a in marked {
        EvacuateOne(malloc, from, start, marked, front, a, to, fwd);
      } else {
        MovedSkip(from, start, marked, front, a, to, fwd);
      }
    }
  }

  lemma {:induction false} EvacuateOne(malloc: Malloc, from: Space, start: Space, marked: set<int>, ws: seq<nat>,
                                       a: nat, to: Space, fwd: map<nat, nat>)
    requires SpaceOk(from) && Moved(from, start, marked, ws, to, fwd) && a in marked && a !in ws && a in from.mem
    requires Place(malloc, Bases(from), to, Copy(from.mem[a])).Some?
    ensures var (to', b) := Place(malloc, Bases(from), to, Copy(from.mem[a])).value;
            Moved(from, start, marked, ws + [a], to', fwd[a := b])
  {
    WalkExact(from);
    CopySize(from.mem[a]);
    PlaceOk(malloc, Bases(from), to, Copy(from.mem[a]));
    PlaceAway(malloc, Bases(from), to, Copy(from.mem[a]));
    var (to', b) := Place(malloc, Bases(from), to, Copy(from.mem[a])).value;
    MovedPut(from, start, marked, ws, a, to, fwd, to', b);
  }

  // ---------- one collection ----------

  // Everything marked is an object of the space.
  ghost predicate AllLive(marked: set<int>, s: Space) {
    forall a :: a in marked ==> a in s.mem
  }

  ghost predicate RootsLive(roots: seq<Word>, s: Space) {
    AllLive(Marked(roots, s), s)
  }

  // The survivors are exactly the marked objects, copied unchanged, one to one and in walk order,
  // to addresses none of which was in use before.
  ghost predicate Compacted(old': Space, marked: set<int>, new': Space, fwd: map<nat, nat>) {
    SpaceOk(new') && Injective(fwd) &&
    (forall a :: a in fwd <==> a in marked) &&
    (forall a :: a in fwd ==> a in old'.mem && fwd[a] in new'.mem && new'.mem[fwd[a]] == Copy(old'.mem[a])) &&
    (forall b :: b in new'.mem ==> b in fwd.Values && b !in old'.mem) &&
    (forall a :: a in Filter(Walk(old'), marked) ==> a in fwd) &&
    Walk(new') == Images(fwd, Filter(Walk(old'), marked))
  }

  lemma {:induction false} EmptyWalk(others: set<nat>)
    ensures Walk(EMPTY) == [] && SpaceOk(EMPTY) && AwayFrom(others, EMPTY)
  {
  }

  // Whichever objects are marked.
  lemma {:induction false} CollectOk(malloc: Malloc, m: Mem, marked: set<int>)
    requires SpaceOk(m.active) && m.idle == EMPTY && AllLive(marked, m.active) && Collect(malloc, m, marked).Some?
    ensures var (m', fwd) := Collect(malloc, m, marked).value;
            m'.idle == EMPTY && Compacted(m.active, marked, m'.active, fwd)
  {
    var ws := Walk(m.active);
    EmptyWalk(Bases(m.active));
    WalkExact(m.active);
    EvacuateOk(malloc, m.active, marked, ws, EMPTY);
    FilterMembers(ws, marked);
    var (m', fwd) := Collect(malloc, m, marked).value;
    MovedAll(m.active, marked, m'.active, fwd);
  }

  lemma {:induction false} FilterWalk(s: Space, marked: set<int>)
    requires SpaceOk(s) && forall a :: a in marked ==> a in s.mem
    ensures forall a :: a in Filter(Walk(s), marked) <==> a in marked
  {
    WalkExact(s);
    FilterMembers(Walk(s), marked);
  }

  lemma {:induction false} AllDisjoint(s: Space, t: Space)
    requires SpaceOk(s) && SpaceOk(t) && AwayFrom(Bases(s), t)
    ensures forall a :: a in s.mem ==> a !in t.mem
  {
    forall a | a in s.mem ensures a !in t.mem {
      AwayDisjoint(s, t, a);
    }
  }

  lemma {:induction false} MovedAll(from: Space, marked: set<int>, to: Space, fwd: map<nat, nat>)
    requires SpaceOk(from) && (forall a :: a in marked ==> a in from.mem) &&
             Moved(from, EMPTY, marked, Walk(from), to, fwd)
    ensures Compacted(from, marked, to, fwd)
  {
    hide SpaceOk, Walk, AwayFrom, Copy, Filter, Images, Injective;
    EmptyWalk({});
    FilterWalk(from, marked);
    AllDisjoint(from, to);
    NothingBefore(Images(fwd, Filter(Walk(from), marked)));
  }

  lemma {:induction false} NothingBefore<T>(w: seq<T>)
    ensures [] + w == w
  {
  }

  // ---------- what a collection means for the roots ----------

  // A root slot keeps naming the same object: same kind, size and contents.
  lemma {:induction false} RootPreserved(old': Space, marked: set<int>, new': Space, fwd: map<nat, nat>, w: Word)
    requires SpaceOk(old') && Compacted(old', marked, new', fwd) && (IsPointer(w) ==> HeaderOf(w) in marked)
    ensures var v := Patch(fwd, w);
            if IsPointer(w) then
              IsPointer(v) && HeaderOf(w) in old'.mem && HeaderOf(v) in new'.mem && HeaderOf(v) == fwd[HeaderOf(w)] &&
              var o, p := old'.mem[HeaderOf(w)], new'.mem[HeaderOf(v)];
              p.kind == o.kind && p.size == o.size && p.payload == o.payload &&
              !p.marked && p.forwarded == 0
            else v == w
  {
    hide SpaceOk, Compacted, IsPointer, DecodePointer, EncodePointer;
    if IsPointer(w) {
      CompactedAt(old', marked, new', fwd, HeaderOf(w));
      PointerRoundTrip(fwd[HeaderOf(w)]);
    }
  }

  lemma {:induction false} CompactedAt(old': Space, marked: set<int>, new': Space, fwd: map<nat, nat>, a: int)
    requires SpaceOk(old') && Compacted(old', marked, new', fwd) && a in marked
    ensures a >= 0 && a in old'.mem && a in fwd && fwd[a] in new'.mem && fwd[a] + 16 < 0x1_0000_0000_0000
    ensures var o, p := old'.mem[a], new'.mem[fwd[a]];
            p.kind == o.kind && p.size == o.size && p.payload == o.payload && !p.marked &&
            p.forwarded == 0
  {
    assert a in fwd;
    ObjectInBounds(old', a);
    ObjectInBounds(new', fwd[a]);
    CopySize(old'.mem[a]);
  }

  // One collection: every root still names its object, non-pointers are untouched, and two
  // roots name the same object afterwards exactly when they did before; whatever is marked
  // besides what the roots name.
  lemma {:induction false} RootsPreserved(malloc: Malloc, m: Mem, roots: seq<Word>, marked: set<int>, j: nat, k: nat)
    requires SpaceOk(m.active) && m.idle == EMPTY && AllLive(marked, m.active) && Named(roots) <= marked
    requires Collect(malloc, m, marked).Some?
    requires j < |roots| && k < |roots|
    ensures var (m', fwd) := Collect(malloc, m, marked).value;
            var after := PatchAll(fwd, roots);
            (!IsPointer(roots[k]) ==> after[k] == roots[k]) &&
            (IsPointer(roots[k]) ==>
               IsPointer(after[k]) && HeaderOf(roots[k]) in m.active.mem && HeaderOf(after[k]) in m'.active.mem &&
               var o, p := m.active.mem[HeaderOf(roots[k])], m'.active.mem[HeaderOf(after[k])];
               p.kind == o.kind && p.size == o.size && p.payload == o.payload) &&
            (IsPointer(roots[j]) && IsPointer(roots[k]) ==>
               (HeaderOf(after[j]) == HeaderOf(after[k]) <==> HeaderOf(roots[j]) == HeaderOf(roots[k])))
  {
    CollectOk(malloc, m, marked);
    var (m', fwd) := Collect(malloc, m, marked).value;
    hide Collect, Patch, SpaceOk, Compacted, IsPointer, HeaderOf;
    RootPreserved(m.active, marked, m'.active, fwd, roots[j]);
    RootPreserved(m.active, marked, m'.active, fwd, roots[k]);
  }

  lemma {:induction false} NamedByRoot(roots: seq<Word>, s: Space, k: nat)
    requires k < |roots|
    ensures IsPointer(roots[k]) ==> HeaderOf(roots[k]) in Marked(roots, s)
  {
  }

  // Every pointer among the words names an object.
  predicate AllName(ws: seq<Word>, s: Space) {
    forall i :: 0 <= i < |ws| && IsPointer(ws[i]) ==> HeaderOf(ws[i]) in s.mem
  }

  // Elements are copied, never patched: one that named an object before the collection names
  // none afterwards, whichever objects were marked and for whatever reason.  So an array whose
  // element pointers all named objects comes through with all of them naming objects exactly
  // when it held no element pointer.
  lemma {:induction false} ElementPointersDangle(old': Space, marked: set<int>, new': Space, fwd: map<nat, nat>, a: nat)
    requires SpaceOk(old') && Compacted(old', marked, new', fwd) && a in marked
    ensures var before, after := old'.mem[a].payload, new'.mem[fwd[a]].payload;
            after == before &&
            (forall i :: 0 <= i < |before| && IsPointer(before[i]) && HeaderOf(before[i]) in old'.mem ==>
               HeaderOf(after[i]) !in new'.mem) &&
            (AllName(before, old') ==>
               (AllName(after, new') <==> forall i :: 0 <= i < |before| ==> !IsPointer(before[i])))
  {
    hide SpaceOk, Compacted, IsPointer, HeaderOf;
    CompactedAt(old', marked, new', fwd, a);
    var es := old'.mem[a].payload;
    forall b | b in old'.mem ensures b !in new'.mem {
      OldIsGone(old', marked, new', fwd, b);
    }
  }

  lemma {:induction false} OldIsGone(old': Space, marked: set<int>, new': Space, fwd: map<nat, nat>, b: nat)
    requires Compacted(old', marked, new', fwd) && b in old'.mem
    ensures b !in new'.mem
  {
  }

  // With live roots, whatever tracing looks at and takes for a pointer names an object.
  lemma {:induction false} ScannedNames(s: Space, roots: seq<Word>, a: nat)
    requires RootsLive(roots, s) && a in s.mem
    ensures AllName(Scanned(s.mem[a]), s)
  {
    var es := Scanned(s.mem[a]);
    forall i | 0 <= i < |es| && IsPointer(es[i]) ensures HeaderOf(es[i]) in s.mem {
      assert HeaderOf(es[i]) in ElementNamed(s);
    }
  }

  // ---------- what one pass marks ----------

  // Where no first payload word reads as the pointer tag, exactly what the roots name is marked.
  lemma {:induction false} NothingTraced(roots: seq<Word>, s: Space)
    requires forall a :: a in s.mem ==> !Traced(s.mem[a])
    ensures Marked(roots, s) == Named(roots)
  {
    assert ElementNamed(s) == {};
  }

  // Each object of the path is named by a word that tracing finds in the one before it.
  predicate Path(s: Space, p: seq<nat>)
  {
    forall k :: 0 <= k < |p| - 1 ==> p[k] in s.mem && p[k + 1] in Named(Scanned(s.mem[p[k]]))
  }

  lemma {:induction false} ElementInNamed(s: Space, a: nat, b: int)
    requires a in s.mem && b in Named(Scanned(s.mem[a]))
    ensures b in ElementNamed(s)
  {
    var es := Scanned(s.mem[a]);
    var i :| 0 <= i < |es| && IsPointer(es[i]) && HeaderOf(es[i]) == b;
  }

  // Without any worklist: every object on every path from a root is marked.
  lemma {:induction false} MarkingCoversReachable(roots: seq<Word>, s: Space, p: seq<nat>, k: nat)
    requires Path(s, p) && k < |p| && p[0] in Named(roots)
    ensures p[k] in Marked(roots, s)
  {
    if k > 0 {
      ElementInNamed(s, p[k - 1], p[k]);
    }
  }

  // ---------- compaction never costs chunks ----------

  const NOTHING: Extent := Extent(0, 0)

  ghost predicate WalkCovers(s: Space) {
    forall a :: a in Walk(s) ==> a in s.mem
  }

  // The space is what next-fit placement of its objects, in walk order, gives.
  ghost predicate Fitted(s: Space)
    requires WalkCovers(s)
  {
    ExtentOf(s) == FitFrom(NOTHING, Sizes(s.mem, Walk(s))) && Used(s) == Sum(Sizes(s.mem, Walk(s)))
  }

  lemma {:induction false} FitSnoc(e: Extent, sizes: seq<nat>, z: nat)
    ensures FitFrom(e, sizes + [z]) == FitStep(FitFrom(e, sizes), z) && Sum(sizes + [z]) == Sum(sizes) + z
  {
    assert (sizes + [z])[..|sizes|] == sizes;
  }

  lemma {:induction false} SizesSnoc(mem: map<nat, Obj>, ws: seq<nat>, a: nat)
    requires a in mem && forall b :: b in ws ==> b in mem
    ensures Sizes(mem, ws + [a]) == Sizes(mem, ws) + [mem[a].size]
  {
  }

  // Dropping objects from the sequence never needs more chunks, nor more of the last one.
  lemma {:induction false} FitFilter(mem: map<nat, Obj>, ws: seq<nat>, marked: set<int>)
    requires forall a :: a in ws ==> a in mem && GoodSize(mem[a].size)
    requires forall a :: a in Filter(ws, marked) ==> a in mem
    ensures AtMost(FitFrom(NOTHING, Sizes(mem, Filter(ws, marked))), FitFrom(NOTHING, Sizes(mem, ws)))
    ensures Sum(Sizes(mem, Filter(ws, marked))) <= Sum(Sizes(mem, ws))
  {
    if ws != [] {
      var n := |ws| - 1;
      var front, a := ws[..n], ws[n];
      assert ws == front + [a];
      hide FitStep, AtMost, Sum, FitFrom, Sizes;
      FilterMembers(front, marked);
      FitFilter(mem, front, marked);
      var kept := Filter(front, marked);
      FitSnoc(NOTHING, Sizes(mem, front), mem[a].size);
      FitSnoc(NOTHING, Sizes(mem, kept), mem[a].size);
      SizesSnoc(mem, front, a);
      SizesSnoc(mem, kept, a);
      FitStepMonotone(FitFrom(NOTHING, Sizes(mem, kept)), FitFrom(NOTHING, Sizes(mem, front)), mem[a].size);
      AtMostTransitive(FitFrom(NOTHING, Sizes(mem, kept)), FitFrom(NOTHING, Sizes(mem, front)),
        FitFrom(NOTHING, Sizes(mem, ws)));
    }
  }

  lemma {:induction false} EvacuateExtent(malloc: Malloc, from: Space, marked: set<int>, ws: seq<nat>, start: Space)
    requires forall a :: a in ws ==> a in from.mem && GoodSize(from.mem[a].size)
    requires forall a :: a in Filter(ws, marked) ==> a in from.mem
    requires Evacuate(malloc, from, marked, ws, start).Some?
    ensures var to, sizes := Evacuate(malloc, from, marked, ws, start).value.0, Sizes(from.mem, Filter(ws, marked));
            ExtentOf(to) == FitFrom(ExtentOf(start), sizes) && Used(to) == Used(start) + Sum(sizes)
  {
    if ws != [] {
      var n := |ws| - 1;
      var front, a := ws[..n], ws[n];
      assert ws == front + [a];
      hide Place, ExtentOf, FitStep, Used, GoodSize, Sum, FitFrom, Sizes, Copy;
      FilterMembers(front, marked);
      EvacuateExtent(malloc, from, marked, front, start);
      if a in marked {
        var kept := Filter(front, marked);
        var to := Evacuate(malloc, from, marked, front, start).value.0;
        CopySize(from.mem[a]);
        PlaceExtent(malloc, Bases(from), to, Copy(from.mem[a]));
        SizesSnoc(from.mem, kept, a);
        FitSnoc(ExtentOf(start), Sizes(from.mem, kept), from.mem[a].size);
      }
    }
  }

  // The survivors, packed in walk order, take no more chunks than the space they came from,
  // no more of the last chunk if equally many, and exactly the sum of their sizes.
  lemma {:induction false} CompactionNeverCostsChunks(malloc: Malloc, m: Mem, marked: set<int>)
    requires SpaceOk(m.active) && WalkCovers(m.active) && Fitted(m.active) && m.idle == EMPTY
    requires AllLive(marked, m.active) && Collect(malloc, m, marked).Some?
    ensures var (m', fwd) := Collect(malloc, m, marked).value;
            |m'.active.chunks| <= |m.active.chunks| && AtMost(ExtentOf(m'.active), ExtentOf(m.active)) &&
            Used(m'.active) <= Used(m.active) &&
            WalkCovers(m'.active) && Fitted(m'.active)
  {
    var ws := Walk(m.active);
    WalkExact(m.active);
    FilterWalk(m.active, marked);
    FitFilter(m.active.mem, ws, marked);
    EvacuateExtent(malloc, m.active, marked, ws, EMPTY);
    CollectOk(malloc, m, marked);
    var (m', fwd) := Collect(malloc, m, marked).value;
    SameSizes(m.active, marked, m'.active, fwd);
  }

  lemma {:induction false} SameSizes(old': Space, marked: set<int>, new': Space, fwd: map<nat, nat>)
    requires SpaceOk(old') && (forall a :: a in marked ==> a in old'.mem) && Compacted(old', marked, new', fwd)
    ensures WalkCovers(new') && (forall a :: a in Filter(Walk(old'), marked) ==> a in old'.mem)
    ensures Sizes(new'.mem, Walk(new')) == Sizes(old'.mem, Filter(Walk(old'), marked))
  {
    WalkExact(new');
    FilterWalk(old', marked);
    var kept := Filter(Walk(old'), marked);
    forall k | 0 <= k < |kept| ensures new'.mem[Walk(new')[k]].size == old'.mem[kept[k]].size {
      ObjectInBounds(old', kept[k]);
      CopySize(old'.mem[kept[k]]);
    }
  }
}
