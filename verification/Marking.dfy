// The collector's in-place bookkeeping: mark flags, the list of slots to patch, forwarding
// words (src/vm/Heap.cpp:72-136), related to the collector as a function.
module Marking {
  import opened Words
  import opened Wrappers
  import opened Space
  import opened Collector

  // ---------- mark flags ----------

  function Flagged(mem: map<nat, Obj>, named: set<int>): (r: map<nat, Obj>)
    ensures r.Keys == mem.Keys
  {
    map a | a in mem :: mem[a].(marked := mem[a].marked || a in named)
  }

  lemma {:induction false} FlagNothing(mem: map<nat, Obj>)
    ensures Flagged(mem, {}) == mem
  {
  }

  lemma {:induction false} FlagOne(mem: map<nat, Obj>, named: set<int>, a: nat)
    requires a in mem
    ensures Flagged(mem, named)[a := Flagged(mem, named)[a].(marked := true)] == Flagged(mem, named + {a})
  {
  }

  lemma {:induction false} NamedSnoc(ws: seq<Word>, n: nat)
    requires n < |ws|
    ensures Named(ws[..n + 1]) == Named(ws[..n]) + if IsPointer(ws[n]) then {HeaderOf(ws[n])} else {}
  {
    hide IsPointer, HeaderOf;
    var v, w := ws[..n], ws[..n + 1];
    forall x | x in Named(w) ensures x in Named(v) || (IsPointer(ws[n]) && x == HeaderOf(ws[n])) {
      var i :| 0 <= i < |w| && IsPointer(w[i]) && HeaderOf(w[i]) == x;
      if i < n {
        assert v[i] == w[i];
      }
    }
    forall x | x in Named(v) ensures x in Named(w) {
      var i :| 0 <= i < |v| && IsPointer(v[i]) && HeaderOf(v[i]) == x;
      assert w[i] == v[i];
    }
    assert w[n] == ws[n];
  }

  lemma {:induction false} NamedJoin(v: seq<Word>, w: seq<Word>)
    ensures Named(v + w) == Named(v) + Named(w)
  {
    hide IsPointer, HeaderOf;
    var all := v + w;
    forall x | x in Named(all) ensures x in Named(v) + Named(w) {
      var i :| 0 <= i < |all| && IsPointer(all[i]) && HeaderOf(all[i]) == x;
      if i >= |v| {
        assert w[i - |v|] == all[i];
      }
    }
    forall x | x in Named(v) ensures x in Named(all) {
      var i :| 0 <= i < |v| && IsPointer(v[i]) && HeaderOf(v[i]) == x;
      assert all[i] == v[i];
    }
    forall x | x in Named(w) ensures x in Named(all) {
      var i :| 0 <= i < |w| && IsPointer(w[i]) && HeaderOf(w[i]) == x;
      assert all[i + |v|] == w[i];
    }
  }

  // What the first n objects' elements name.
  function NamedBy(mem: map<nat, Obj>, ws: seq<nat>, n: nat): set<int>
    requires n <= |ws| && forall a :: a in ws ==> a in mem
  {
    if n == 0 then {} else NamedBy(mem, ws, n - 1) + Named(Scanned(mem[ws[n - 1]]))
  }

  lemma {:induction false} NamedByMember(mem: map<nat, Obj>, ws: seq<nat>, n: nat, x: int)
    requires n <= |ws| && forall a :: a in ws ==> a in mem
    ensures x in NamedBy(mem, ws, n) <==> exists k :: 0 <= k < n && x in Named(Scanned(mem[ws[k]]))
  {
    hide Named, Scanned;
    if n > 0 {
      NamedByMember(mem, ws, n - 1, x);
    }
  }

  lemma {:induction false} NamedByAll(s: Space)
    requires SpaceOk(s) && forall a :: a in Walk(s) ==> a in s.mem
    ensures NamedBy(s.mem, Walk(s), |Walk(s)|) == ElementNamed(s)
  {
    WalkExact(s);
    hide IsPointer, HeaderOf, Scanned, SpaceOk, Walk;
    var ws := Walk(s);
    forall x ensures x in NamedBy(s.mem, ws, |ws|) <==> x in ElementNamed(s) {
      NamedByMember(s.mem, ws, |ws|, x);
      if x in NamedBy(s.mem, ws, |ws|) {
        var k :| 0 <= k < |ws| && x in Named(Scanned(s.mem[ws[k]]));
        ElementInNamed(s, ws[k], x);
      }
      if x in ElementNamed(s) {
        var a, i :| a in s.mem && 0 <= i < |Scanned(s.mem[a])| && IsPointer(Scanned(s.mem[a])[i]) &&
          HeaderOf(Scanned(s.mem[a])[i]) == x;
        assert a in ws;
        var k :| 0 <= k < |ws| && ws[k] == a;
        assert x in Named(Scanned(s.mem[ws[k]]));
      }
    }
  }

  // ---------- slots ----------

  datatype Home = InRegs | InStack | InObject(a: nat)

  datatype Slot = Slot(home: Home, index: nat)

  // The pointer-holding slots among the first n words, in order.
  function WordSlots(home: Home, ws: seq<Word>, n: nat): seq<Slot>
    requires n <= |ws|
  {
    if n == 0 then [] else WordSlots(home, ws, n - 1) + if IsPointer(ws[n - 1]) then [Slot(home, n - 1)] else []
  }

  function ElemSlots(mem: map<nat, Obj>, ws: seq<nat>, n: nat): seq<Slot>
    requires n <= |ws| && forall a :: a in ws ==> a in mem
  {
    if n == 0 then []
    else
      var a := ws[n - 1];
      ElemSlots(mem, ws, n - 1) + WordSlots(InObject(a), Scanned(mem[a]), |Scanned(mem[a])|)
  }

  // Registers, live stack, then what tracing looks at in every object, in walking order.
  function PointerSlots(reg: seq<Word>, live: seq<Word>, s: Space): seq<Slot>
    requires forall a :: a in Walk(s) ==> a in s.mem
  {
    WordSlots(InRegs, reg, |reg|) + WordSlots(InStack, live, |live|) + ElemSlots(s.mem, Walk(s), |Walk(s)|)
  }

  // The word in a slot, when the slot is one the collector looks at.
  function SlotWord(reg: seq<Word>, live: seq<Word>, mem: map<nat, Obj>, slot: Slot): Option<Word> {
    var ws := match slot.home
      case InRegs => reg
      case InStack => live
      case InObject(a) => if a in mem then Scanned(mem[a]) else [];
    if slot.index < |ws| then Some(ws[slot.index]) else None
  }

  predicate HoldsPointer(reg: seq<Word>, live: seq<Word>, mem: map<nat, Obj>, slot: Slot) {
    var w := SlotWord(reg, live, mem, slot);
    w.Some? && IsPointer(w.value)
  }

  ghost predicate NoRepeats(slots: seq<Slot>) {
    forall i, j :: 0 <= i < j < |slots| ==> slots[i] != slots[j]
  }

  lemma {:induction false} NoRepeatsJoin(a: seq<Slot>, b: seq<Slot>)
    requires NoRepeats(a) && NoRepeats(b) && forall s :: s in a ==> s !in b
    ensures NoRepeats(a + b)
  {
    forall i, j | 0 <= i < j < |a + b| ensures (a + b)[i] != (a + b)[j] {
      if i < |a| <= j {
        assert a[i] in a && b[j - |a|] in b;
      }
    }
  }

  lemma {:induction false} WordSlotsExact(home: Home, ws: seq<Word>, n: nat)
    requires n <= |ws|
    ensures NoRepeats(WordSlots(home, ws, n))
    ensures forall s :: s in WordSlots(home, ws, n) <==> s.home == home && s.index < n && IsPointer(ws[s.index])
  {
    hide IsPointer;
    if n > 0 {
      WordSlotsExact(home, ws, n - 1);
      var last := if IsPointer(ws[n - 1]) then [Slot(home, n - 1)] else [];
      NoRepeatsJoin(WordSlots(home, ws, n - 1), last);
    }
  }

  lemma {:induction false} ElemSlotsExact(mem: map<nat, Obj>, ws: seq<nat>, n: nat)
    requires n <= |ws| && Distinct(ws) && forall a :: a in ws ==> a in mem
    ensures NoRepeats(ElemSlots(mem, ws, n))
    ensures forall s :: s in ElemSlots(mem, ws, n) <==>
              s.home.InObject? && s.home.a in ws[..n] && s.home.a in mem &&
              s.index < |Scanned(mem[s.home.a])| && IsPointer(Scanned(mem[s.home.a])[s.index])
  {
    hide IsPointer, Scanned, WordSlots;
    if n > 0 {
      ElemSlotsExact(mem, ws, n - 1);
      var a := ws[n - 1];
      WordSlotsExact(InObject(a), Scanned(mem[a]), |Scanned(mem[a])|);
      var last := WordSlots(InObject(a), Scanned(mem[a]), |Scanned(mem[a])|);
      assert ws[..n] == ws[..n - 1] + [a];
      assert a !in ws[..n - 1];
      NoRepeatsJoin(ElemSlots(mem, ws, n - 1), last);
    }
  }

  // Every slot that holds a pointer is listed, exactly once, and its target is marked.
  lemma {:induction false} SlotsExact(reg: seq<Word>, live: seq<Word>, s: Space)
    requires SpaceOk(s) && forall a :: a in Walk(s) ==> a in s.mem
    ensures NoRepeats(PointerSlots(reg, live, s))
    ensures forall slot :: slot in PointerSlots(reg, live, s) <==> HoldsPointer(reg, live, s.mem, slot)
    ensures forall slot :: slot in PointerSlots(reg, live, s) ==>
              HoldsPointer(reg, live, s.mem, slot) &&
              HeaderOf(SlotWord(reg, live, s.mem, slot).value) in Marked(reg + live, s)
  {
    WalkExact(s);
    hide SpaceOk, Walk, IsPointer, HeaderOf, Scanned, WordSlots, ElemSlots;
    var ws := Walk(s);
    WordSlotsExact(InRegs, reg, |reg|);
    WordSlotsExact(InStack, live, |live|);
    ElemSlotsExact(s.mem, ws, |ws|);
    assert ws[..|ws|] == ws;
    var a, b, c := WordSlots(InRegs, reg, |reg|), WordSlots(InStack, live, |live|), ElemSlots(s.mem, ws, |ws|);
    NoRepeatsJoin(a, b);
    NoRepeatsJoin(a + b, c);
    NamedJoin(reg, live);
    forall slot | HoldsPointer(reg, live, s.mem, slot)
      ensures HeaderOf(SlotWord(reg, live, s.mem, slot).value) in Marked(reg + live, s)
    {
      var w := SlotWord(reg, live, s.mem, slot).value;
      match slot.home
      case InRegs => assert reg[slot.index] == w;
      case InStack => assert live[slot.index] == w;
      case InObject(a) => assert Scanned(s.mem[a])[slot.index] == w;
    }
  }

  // Writing through a slot.  Tracing starts with the second payload word.
  function StoreSlot(reg: seq<Word>, live: seq<Word>, mem: map<nat, Obj>, slot: Slot,
                     w: Word): (r: (seq<Word>, seq<Word>, map<nat, Obj>))
    requires SlotWord(reg, live, mem, slot).Some?
    ensures |r.0| == |reg| && |r.1| == |live|
  {
    match slot.home
    case InRegs => (reg[slot.index := w], live, mem)
    case InStack => (reg, live[slot.index := w], mem)
    case InObject(a) => (reg, live, mem[a := mem[a].(payload := mem[a].payload[1 + slot.index := w])])
  }

  lemma {:induction false} StoreOne(reg: seq<Word>, live: seq<Word>, mem: map<nat, Obj>, slot: Slot, w: Word,
                                    other: Slot)
    requires SlotWord(reg, live, mem, slot).Some?
    ensures var (r, l, m) := StoreSlot(reg, live, mem, slot, w);
            SlotWord(r, l, m, other) == if other == slot then Some(w) else SlotWord(reg, live, mem, other)
  {
  }

  // The slots of `done` have been patched, no other has changed, and forwarding words stand.
  ghost predicate Patched(reg: seq<Word>, live: seq<Word>, mem: map<nat, Obj>,
                          reg0: seq<Word>, live0: seq<Word>, mem0: map<nat, Obj>, fwd: map<nat, nat>, done: seq<Slot>) {
    |reg| == |reg0| && |live| == |live0| &&
    (forall a :: a in fwd ==> a in mem && mem[a].forwarded == PointerTo(fwd[a])) &&
    forall slot {:trigger slot in done} {:trigger SlotWord(reg, live, mem, slot)} ::
      var w := SlotWord(reg0, live0, mem0, slot);
      SlotWord(reg, live, mem, slot) == if slot in done && w.Some? then Some(Patch(fwd, w.value)) else w
  }

  lemma {:induction false} PatchOne(reg: seq<Word>, live: seq<Word>, mem: map<nat, Obj>,
                                    reg0: seq<Word>, live0: seq<Word>, mem0: map<nat, Obj>, fwd: map<nat, nat>,
                                    done: seq<Slot>, slot: Slot)
    requires Patched(reg, live, mem, reg0, live0, mem0, fwd, done) && slot !in done
    requires HoldsPointer(reg0, live0, mem0, slot) && HeaderOf(SlotWord(reg0, live0, mem0, slot).value) in fwd
    ensures SlotWord(reg, live, mem, slot).Some?
    ensures var hdr := HeaderOf(SlotWord(reg, live, mem, slot).value);
            hdr in mem &&
            var (r, l, m) := StoreSlot(reg, live, mem, slot, mem[hdr].forwarded);
            Patched(r, l, m, reg0, live0, mem0, fwd, done + [slot])
  {
    hide HeaderOf, IsPointer;
    var w := SlotWord(reg0, live0, mem0, slot).value;
    assert SlotWord(reg, live, mem, slot) == Some(w);
    var v := mem[HeaderOf(w)].forwarded;
    var (r, l, m) := StoreSlot(reg, live, mem, slot, v);
    forall s ensures SlotWord(r, l, m, s) == if s == slot then Some(v) else SlotWord(reg, live, mem, s) {
      StoreOne(reg, live, mem, slot, v, s);
    }
    hide SlotWord;
    assert forall s :: s in done + [slot] <==> s in done || s == slot;
  }

  lemma {:induction false} PatchNothing(reg: seq<Word>, live: seq<Word>, mem: map<nat, Obj>, mem0: map<nat, Obj>,
                                        fwd: map<nat, nat>)
    requires forall a :: a in fwd ==> a in mem && mem[a].forwarded == PointerTo(fwd[a])
    requires mem.Keys == mem0.Keys &&
             forall a :: a in mem ==> Scanned(mem[a]) == Scanned(mem0[a])
    ensures Patched(reg, live, mem, reg, live, mem0, fwd, [])
  {
    hide Scanned;
  }

  // Once every pointer slot is patched, so are all registers and the live stack.
  lemma {:induction false} PatchedAll(reg: seq<Word>, live: seq<Word>, mem: map<nat, Obj>, reg0: seq<Word>,
                                      live0: seq<Word>, s: Space, fwd: map<nat, nat>)
    requires SpaceOk(s) && forall a :: a in Walk(s) ==> a in s.mem
    requires Patched(reg, live, mem, reg0, live0, s.mem, fwd, PointerSlots(reg0, live0, s))
    ensures reg == PatchAll(fwd, reg0) && live == PatchAll(fwd, live0)
  {
    SlotsExact(reg0, live0, s);
    hide SpaceOk, Walk, PointerSlots, IsPointer, HeaderOf;
    var slots := PointerSlots(reg0, live0, s);
    forall k | 0 <= k < |reg| ensures reg[k] == Patch(fwd, reg0[k]) {
      var slot := Slot(InRegs, k);
      assert SlotWord(reg, live, mem, slot) == Some(reg[k]);
      assert slot in slots <==> IsPointer(reg0[k]);
    }
    forall k | 0 <= k < |live| ensures live[k] == Patch(fwd, live0[k]) {
      var slot := Slot(InStack, k);
      assert SlotWord(reg, live, mem, slot) == Some(live[k]);
      assert slot in slots <==> IsPointer(live0[k]);
    }
  }

  // ---------- forwarding words ----------

  function Forwarded(mem: map<nat, Obj>, fwd: map<nat, nat>): (r: map<nat, Obj>)
    ensures r.Keys == mem.Keys
  {
    map a | a in mem :: if a in fwd then mem[a].(forwarded := PointerTo(fwd[a])) else mem[a]
  }

  lemma {:induction false} ForwardOne(mem: map<nat, Obj>, fwd: map<nat, nat>, a: nat, b: nat)
    requires a in mem
    ensures Forwarded(mem, fwd)[a := Forwarded(mem, fwd)[a].(forwarded := PointerTo(b))] == Forwarded(mem, fwd[a := b])
  {
  }

  lemma {:induction false} ForwardNothing(mem: map<nat, Obj>)
    ensures Forwarded(mem, map[]) == mem
  {
  }

  // Writing the payload after the header makes the object heapAlloc left unfinished.
  lemma {:induction false} PlaceFill(malloc: Malloc, others: set<nat>, s: Space, blank: Obj, o: Obj)
    requires blank.size == o.size
    ensures var p, q := Place(malloc, others, s, blank), Place(malloc, others, s, o);
            p.Some? == q.Some? && (p.Some? ==>
              p.value.1 == q.value.1 && p.value.1 in p.value.0.mem && p.value.0.mem[p.value.1] == blank &&
              q.value.0 == Space(p.value.0.chunks, p.value.0.mem[p.value.1 := o]))
  {
    var r := Reserve(malloc, others, s, o.size);
    if r.Some? {
      var m, a := r.value.mem, Top(r.value);
      assert m[a := blank][a := o] == m[a := o];
    }
  }

  lemma {:induction false} EvacuateSnoc(malloc: Malloc, from: Space, marked: set<int>, ws: seq<nat>, a: nat, to: Space)
    requires (forall b :: b in ws ==> b in from.mem) && a in from.mem
    ensures var before, after := Evacuate(malloc, from, marked, ws, to), Evacuate(malloc, from, marked, ws + [a], to);
            if before.None? || a !in marked then after == before
            else
              var p := Place(malloc, Bases(from), before.value.0, Copy(from.mem[a]));
              after == if p.None? then None else Some((p.value.0, before.value.1[a := p.value.1]))
  {
    assert (ws + [a])[..|ws|] == ws;
    assert forall b :: b in ws + [a] ==> b in from.mem;
  }

  lemma {:induction false} EvacuateFails(malloc: Malloc, from: Space, marked: set<int>, ws: seq<nat>, n: nat, to: Space)
    requires (forall b :: b in ws ==> b in from.mem) && n <= |ws|
    requires (forall b :: b in ws[..n] ==> b in from.mem) && Evacuate(malloc, from, marked, ws[..n], to).None?
    ensures Evacuate(malloc, from, marked, ws, to).None?
    decreases |ws|
  {
    if n == |ws| {
      assert ws[..n] == ws;
    } else {
      var front := ws[..|ws| - 1];
      assert front[..n] == ws[..n];
      EvacuateFails(malloc, from, marked, front, n, to);
    }
  }

  // Marks and forwarding words of the from-space do not influence the move.
  lemma {:induction false} EvacuateSame(malloc: Malloc, from: Space, from': Space, marked: set<int>, ws: seq<nat>,
                                        to: Space)
    requires (forall b :: b in ws ==> b in from.mem && b in from'.mem && Copy(from.mem[b]) == Copy(from'.mem[b]))
    requires from.chunks == from'.chunks
    ensures Evacuate(malloc, from, marked, ws, to) == Evacuate(malloc, from', marked, ws, to)
  {
    hide Copy, Place;
    if ws != [] {
      EvacuateSame(malloc, from, from', marked, ws[..|ws| - 1], to);
      assert Bases(from) == Bases(from');
    }
  }
}
