// The whole chain: assembly text to image, image into a fresh machine, machine run, judged by
// the reference machine on the text's resolved instructions.
module Toolchain {
  import opened Words
  import opened Wrappers
  import opened Assembly
  import opened Assembler
  import opened Machine
  import opened VmSpec
  import opened Loading
  import opened Reference
  import opened Simulation
  import opened Tracing
  import opened TwinStates
  import opened Transparency
  import opened Loader
  import opened Pointers
  import opened VirtualMachine

  // The reference machine makes a claim about n steps of c, whatever allocations collect.
  ghost predicate Disciplined(env: Env, c: Code, n: nat) {
    forall gcs: seq<bool> :: |gcs| <= n ==> !RefRun(env, c, StartRef(), gcs).Undefined?
  }

  // The reference machine ends with this status and this output.
  ghost predicate Reports(r: Outcome<Ref>, st: Status, printed: seq<Printed>) {
    match r
    case Next(s) => st == Running && printed == s.core.out
    case Halt(s) => st == Halted && printed == s.core.out
    case Throw(e) => st == Thrown(e)
    case Undefined => false
  }

  // With collections at some allocations, the reference machine reports the same.
  ghost predicate Faithful(env: Env, c: Code, n: nat, st: Status, printed: seq<Printed>) {
    exists gcs: seq<bool> :: |gcs| == n && Reports(RefRun(env, c, StartRef(), gcs), st, printed)
  }

  // One run to judge by: with these collections, in untagged memory, it stays tame, within memory
  // and defined.
  ghost predicate Settled(env: Env, c: Code, gcs: seq<bool>) {
    Untagged(env.stale) && TameAlong(env, c, StartRef(), gcs) &&
    !RefRun(env, c, StartRef(), gcs).Undefined? && RefRun(env, c, StartRef(), gcs) != Throw(BadAlloc)
  }

  ghost predicate Claimed(env: Env, c: Code, n: nat) {
    Loadable(c) && (Disciplined(env, c, n) || exists gcs: seq<bool> :: |gcs| == n && Settled(env, c, gcs))
  }

  // The run reports what any settled run of this length does, unless memory runs out.
  ghost predicate Decided(env: Env, c: Code, n: nat, st: Status, printed: seq<Printed>) {
    forall gcs: seq<bool> :: |gcs| == n && Settled(env, c, gcs) ==>
      st == Thrown(BadAlloc) || Reports(RefRun(env, c, StartRef(), gcs), st, printed)
  }

  // Assemble, load, run for at most n instructions.
  method AssembleAndRun(env: Env, lines: seq<Line>, n: nat) returns (r: Result<(Status, seq<Printed>), AsmError>)
    requires ParseLines(lines).Ok? && Emittable(ParseLines(lines).value) ==>
             Claimed(env, Resolve(ParseLines(lines).value), n)
    ensures r.Ok? <==> ParseLines(lines).Ok? && Emittable(ParseLines(lines).value)
    ensures r.Ok? ==> Faithful(env, Resolve(ParseLines(lines).value), n, r.value.0, r.value.1)
    ensures r.Ok? ==> Decided(env, Resolve(ParseLines(lines).value), n, r.value.0, r.value.1)
  {
    hide Emittable, Assembly.Image, RefRun, VmRun, RunFor, LoadVm, Loadable, Disciplined, Faithful, Decided, Settled,
      LoadedFrom, Rel, ParseLines, Encodings;
    var assembler := new Assembler();
    var image := assembler.Assemble(lines);
    if image.Err? {
      return Err(image.error);
    }
    ghost var c := Resolve(ParseLines(lines).value);
    ClaimedIsDisciplined(env, c, n);
    LoadImage(c);
    var vm := new VM(env, image.value);
    var _ := vm.Init();
    RunIsReported(env, c, vm.Image(), vm.State(), vm.heapA.max, n);
    var st := vm.Run(n);
    ReportIsDecided(env, c, n, st, vm.out);
    r := Ok((st, vm.out));
  }

  // The machine ends with this status and this output.
  ghost predicate Ends(r: Outcome<Vm>, st: Status, printed: seq<Printed>) {
    match r
    case Next(v) => st == Running && printed == v.core.out
    case Halt(v) => st == Halted && printed == v.core.out
    case Throw(e) => st == Thrown(e)
    case Undefined => false
  }

  lemma {:induction false} RunIsReported(env: Env, c: Code, ld: Loaded, v: Vm, max: nat, n: nat)
    requires LoadedFrom(c, ld) && Rel(c, StartRef(), v) && Disciplined(env, c, n)
    ensures !RunFor(env, ld, v, max, n).Undefined?
    ensures forall st, printed :: Ends(RunFor(env, ld, v, max, n), st, printed) ==> Faithful(env, c, n, st, printed)
  {
    hide RefRun, VmRun, RunFor, Choices, LoadedFrom, CellsRel, FramesRel, Addr;
    var gcs := Choices(env, ld, v, max, n);
    RunForChooses(env, ld, v, max, n);
    SimRun(env, c, ld, StartRef(), v, gcs);
    DisciplinedAt(env, c, n, gcs);
    var all := gcs + Never(n - |gcs|);
    if !RefRun(env, c, StartRef(), gcs).Next? {
      StoppedRun(env, c, StartRef(), gcs, Never(n - |gcs|));
    } else {
      assert all == gcs;
    }
    forall st, printed | Ends(RunFor(env, ld, v, max, n), st, printed) ensures Faithful(env, c, n, st, printed) {
      assert |all| == n && Reports(RefRun(env, c, StartRef(), all), st, printed);
    }
  }

  lemma {:induction false} DisciplinedAt(env: Env, c: Code, n: nat, gcs: seq<bool>)
    requires Disciplined(env, c, n) && |gcs| <= n
    ensures !RefRun(env, c, StartRef(), gcs).Undefined?
  {
  }

  // ---------- tame texts ----------

  // One settled run answers for the runs with all other collections, on any allocator.
  lemma {:induction false} SettledIsDisciplined(env: Env, env': Env, c: Code, gcs: seq<bool>)
    requires Settled(env, c, gcs) && Alike(env, env')
    ensures Disciplined(env', c, |gcs|)
  {
    hide RefRun, TameAlong, Twins, Untagged, CalmTwins;
    StartTwins();
    forall hs: seq<bool> | |hs| <= |gcs| ensures !RefRun(env', c, StartRef(), hs).Undefined? {
      TamePrefix(env, c, StartRef(), gcs, |hs|);
      CollectorTransparent(env, env', c, StartRef(), StartRef(), gcs[..|hs|], hs);
    }
  }

  lemma {:induction false} ClaimedIsDisciplined(env: Env, c: Code, n: nat)
    requires Claimed(env, c, n)
    ensures Disciplined(env, c, n)
  {
    hide TameAlong, Disciplined, Loadable, RefRun, Untagged;
    if !Disciplined(env, c, n) {
      var gcs: seq<bool> :| |gcs| == n && Settled(env, c, gcs);
      SettledIsDisciplined(env, env, c, gcs);
    }
  }

  lemma {:induction false} TwinsPrintAlike(s: Ref, t: Ref)
    requires Twins(s, t)
    ensures s.core.out == t.core.out
  {
  }

  // Whatever run reports is what any settled run of this length on any allocator reports.
  lemma {:induction false} FaithfulIsDecided(env: Env, env': Env, c: Code, n: nat, st: Status, printed: seq<Printed>)
    requires Faithful(env', c, n, st, printed) && Alike(env, env')
    ensures Decided(env, c, n, st, printed)
  {
    hide RefRun, TameAlong, Twins, Untagged, CalmTwins;
    StartTwins();
    var hs: seq<bool> :| |hs| == n && Reports(RefRun(env', c, StartRef(), hs), st, printed);
    forall gcs: seq<bool> | |gcs| == n && Settled(env, c, gcs)
      ensures st == Thrown(BadAlloc) || Reports(RefRun(env, c, StartRef(), gcs), st, printed)
    {
      CollectorTransparent(env, env', c, StartRef(), StartRef(), gcs, hs);
      var r, q := RefRun(env, c, StartRef(), gcs), RefRun(env', c, StartRef(), hs);
      if r.Next? && q.Next? {
        TwinsPrintAlike(r.s, q.s);
      }
    }
  }

  // Where no run is settled there is nothing to decide.
  lemma {:induction false} ReportIsDecided(env: Env, c: Code, n: nat, st: Status, printed: seq<Printed>)
    requires Faithful(env, c, n, st, printed)
    ensures Decided(env, c, n, st, printed)
  {
    hide RefRun, TameAlong, Untagged, Faithful;
    if Untagged(env.stale) {
      FaithfulIsDecided(env, env, c, n, st, printed);
    }
  }
}
