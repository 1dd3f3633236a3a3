// Which branches of a text find their label, told from the lines alone, and so which texts
// assemble (tools/assembler/assembler.py:259-300, 414-422).
module Labels {
  import opened Words
  import opened Wrappers
  import opened Bytes
  import opened Isa
  import opened Literals
  import opened Assembly
  import opened Layout
  import opened Assembler

  // ---------- feeding one line after the other ----------

  lemma {:induction false} FeedSnoc(lines: seq<Line>, line: Line)
    ensures FeedAll(lines + [line]) == if FeedAll(lines).Err? then FeedAll(lines) else Feed(FeedAll(lines).value, line)
  {
    assert (lines + [line])[..|lines|] == lines;
  }

  lemma {:induction false} FeedFirst(name: string, size: int)
    ensures FeedAll([FuncLine(name, size)]) == Ok(Source([Func(name, size, [], map[])], true))
  {
    assert [FuncLine(name, size)][..0] == [];
    assert FeedAll([]) == Ok(Source([], false));
    assert [] + [Func(name, size, [], map[])] == [Func(name, size, [], map[])];
  }

  // The instruction a line stands for, a call with its own index, a load with its immediate.
  function Instruction(line: Line): Option<Instr<string>> {
    match line
    case LoadLine(rd, literal) =>
      var w := EncodeLiteral(literal);
      if w.None? then None else Some(Load(rd, w.value))
    case CallLine(index) => if 0 <= index < 0x100_0000 then Some(Call(index)) else None
    case InstrLine(i) => Some(i)
    case _ => None
  }

  predicate OperandFits(line: Line) {
    match line
    case LoadLine(_, Chars(text)) => |text| <= 6
    case CallLine(index) => 0 <= index <= 16777215
    case _ => true
  }

  // A line is refused exactly where it may not stand, or for its operand.
  lemma {:induction false} FeedRefuses(s: Source, line: Line)
    requires ValidSource(s)
    ensures line.FuncLine? ==> if s.open then Feed(s, line) == Err(NestedFunc) else Feed(s, line).Ok?
    ensures line.EndFuncLine? ==> if s.open then Feed(s, line).Ok? else Feed(s, line) == Err(StrayEndFunc)
    ensures !line.FuncLine? && !line.EndFuncLine? ==>
              if !s.open then Feed(s, line) == Err(OutsideFunc)
              else if OperandFits(line) then Feed(s, line).Ok?
              else Feed(s, line) == Err(if line.LoadLine? then LiteralTooLong else IndexOutOfRange)
  {
    hide Lower, Box, EncodeInt, EncodeBool, LittleEndian;
  }

  // The instructions of a block of instruction lines.
  function Instructions(lines: seq<Line>): (r: seq<Instr<string>>)
    requires forall k :: 0 <= k < |lines| ==> Instruction(lines[k]).Some?
    ensures |r| == |lines| && forall k :: 0 <= k < |r| ==> r[k] == Instruction(lines[k]).value
  {
    seq(|lines|, k requires 0 <= k < |lines| => Instruction(lines[k]).value)
  }

  // They are appended to the open function.
  lemma {:induction false} FeedBlock(before: seq<Line>, fs: Program, f: Func, lines: seq<Line>)
    requires FeedAll(before) == Ok(Source(fs + [f], true))
    requires forall k :: 0 <= k < |lines| ==> Instruction(lines[k]).Some?
    ensures FeedAll(before + lines) == Ok(Source(fs + [f.(body := f.body + Instructions(lines))], true))
    decreases |lines|
  {
    hide EncodeLiteral, FeedAll;
    if lines == [] {
      assert before + lines == before && f.body + Instructions(lines) == f.body;
    } else {
      var n := |lines| - 1;
      FeedBlock(before, fs, f, lines[..n]);
      FeedSnoc(before + lines[..n], lines[n]);
      assert before + lines == before + lines[..n] + [lines[n]];
      assert f.body + Instructions(lines) == f.body + Instructions(lines[..n]) + [Instruction(lines[n]).value];
      var g := f.(body := f.body + Instructions(lines[..n]));
      LastSet(fs, g, Append(g, Instruction(lines[n]).value));
    }
  }

  lemma {:induction false} LastSet(fs: Program, f: Func, g: Func)
    ensures SetLast(fs + [f], g) == fs + [g] && (fs + [f])[|fs + [f]| - 1] == f
  {
  }

  lemma {:induction false} FeedLabel(before: seq<Line>, fs: Program, f: Func, name: string, l: string)
    requires FeedAll(before) == Ok(Source(fs + [f], true)) && Folds(name, l)
    ensures FeedAll(before + [LabelLine(name)]) == Ok(Source(fs + [f.(labels := f.labels[l := |f.body|])], true))
  {
    hide FeedAll, Lower, Folds;
    LowerFolds(name, l);
    FeedSnoc(before, LabelLine(name));
    LastSet(fs, f, f.(labels := f.labels[l := |f.body|]));
  }

  lemma {:induction false} FeedFunc(before: seq<Line>, fs: Program, name: string, size: int)
    requires FeedAll(before) == Ok(Source(fs, false))
    ensures FeedAll(before + [FuncLine(name, size)]) == Ok(Source(fs + [Func(name, size, [], map[])], true))
  {
    hide FeedAll;
    FeedSnoc(before, FuncLine(name, size));
  }

  lemma {:induction false} FeedEnd(before: seq<Line>, fs: Program)
    requires FeedAll(before) == Ok(Source(fs, true))
    ensures FeedAll(before + [EndFuncLine]) == Ok(Source(fs, false))
  {
    hide FeedAll;
    FeedSnoc(before, EndFuncLine);
  }

  // ---------- labels and references ----------

  // How many functions the lines have opened.
  function Funcs(lines: seq<Line>): nat {
    if lines == [] then 0
    else
      Funcs(lines[..|lines| - 1]) + if lines[|lines| - 1].FuncLine? then 1 else 0
  }

  // Line j defines, in function f, the label l: its name with the capitals folded.
  predicate DefinesAt(lines: seq<Line>, j: int, f: nat, l: string) {
    0 <= j < |lines| && lines[j].LabelLine? && Folds(lines[j].name, l) && Funcs(lines[..j]) == f + 1
  }

  // Line j branches, in function f, to the label l.
  predicate BranchesAt(lines: seq<Line>, j: int, f: nat, l: string) {
    0 <= j < |lines| && lines[j].InstrLine? && lines[j].instr.Branch? && lines[j].instr.target == l &&
    Funcs(lines[..j]) == f + 1
  }

  ghost predicate DefinedIn(lines: seq<Line>, f: nat, l: string) {
    exists j :: DefinesAt(lines, j, f, l)
  }

  ghost predicate BranchedIn(lines: seq<Line>, f: nat, l: string) {
    exists j :: BranchesAt(lines, j, f, l)
  }

  predicate BodyBranches(f: Func, l: string) {
    exists k :: 0 <= k < |f.body| && f.body[k].Branch? && f.body[k].target == l
  }

  lemma {:induction false} LinesStep(lines: seq<Line>, f: nat, l: string)
    requires lines != []
    ensures var n := |lines| - 1;
            (DefinedIn(lines, f, l) <==> DefinedIn(lines[..n], f, l) || DefinesAt(lines, n, f, l)) &&
            (BranchedIn(lines, f, l) <==> BranchedIn(lines[..n], f, l) || BranchesAt(lines, n, f, l))
  {
    hide Folds, Funcs;
    var n := |lines| - 1;
    forall j | 0 <= j < n
      ensures DefinesAt(lines, j, f, l) == DefinesAt(lines[..n], j, f, l)
      ensures BranchesAt(lines, j, f, l) == BranchesAt(lines[..n], j, f, l)
    {
      assert lines[..n][..j] == lines[..j];
    }
    forall j | n < j ensures !DefinesAt(lines, j, f, l) && !BranchesAt(lines, j, f, l) {
    }
  }

  lemma {:induction false} FuncsCounted(lines: seq<Line>)
    requires FeedAll(lines).Ok?
    ensures |FeedAll(lines).value.funcs| == Funcs(lines)
  {
    hide Lower, EncodeLiteral;
    if lines != [] {
      FuncsCounted(lines[..|lines| - 1]);
    }
  }

  // ---------- what a function consists of ----------

  // The instructions of function f, in the order of its lines.
  function BodyLines(lines: seq<Line>, f: nat): seq<Instr<string>> {
    if lines == [] then []
    else
      var n := |lines| - 1;
      var before := BodyLines(lines[..n], f);
      if Funcs(lines[..n]) == f + 1 && Instruction(lines[n]).Some? then before + [Instruction(lines[n]).value]
      else before
  }

  // Function f consists of the instructions of its lines, in order.
  lemma {:induction false} FuncBody(lines: seq<Line>, f: nat)
    requires FeedAll(lines).Ok? && f < |FeedAll(lines).value.funcs|
    ensures FeedAll(lines).value.funcs[f].body == BodyLines(lines, f)
  {
    var n := |lines| - 1;
    var front := lines[..n];
    FuncsCounted(front);
    FuncsCounted(lines);
    FeedBody(FeedAll(front).value, lines[n], f);
    hide Feed, Instruction;
    if f < |FeedAll(front).value.funcs| {
      FuncBody(front, f);
    } else {
      NoBody(front, f);
    }
  }

  lemma {:induction false} FeedBody(s: Source, line: Line, f: nat)
    requires ValidSource(s) && Feed(s, line).Ok? && f < |Feed(s, line).value.funcs|
    ensures var b := Feed(s, line).value.funcs[f].body;
            if f >= |s.funcs| then line.FuncLine? && b == []
            else if f + 1 == |s.funcs| && Instruction(line).Some?
            then b == s.funcs[f].body + [Instruction(line).value]
            else b == s.funcs[f].body
  {
    hide Lower, EncodeLiteral;
  }

  lemma {:induction false} NoBody(lines: seq<Line>, f: nat)
    requires Funcs(lines) <= f
    ensures BodyLines(lines, f) == []
  {
    hide Instruction;
    if lines != [] {
      NoBody(lines[..|lines| - 1], f);
    }
  }

  // Instruction k is the line's own: a call with its index, a load with its register and the word
  // its literal stands for, or else the instruction written there.
  predicate Stands(line: Line, body: seq<Instr<string>>, k: nat) {
    match line
    case CallLine(index) => k < |body| && 0 <= index < 0x100_0000 && body[k] == Call(index)
    case LoadLine(rd, literal) =>
      k < |body| && body[k].Load? && body[k].rd == rd && EncodeLiteral(literal) == Some(body[k].imm)
    case InstrLine(i) => k < |body| && body[k] == i
    case _ => true
  }

  // Each line adds its own instruction, behind those of the function's lines before it.
  lemma {:induction false} LineStands(lines: seq<Line>, j: nat, f: nat)
    requires FeedAll(lines).Ok? && j < |lines| && Funcs(lines[..j]) == f + 1 && f < |FeedAll(lines).value.funcs|
    ensures Stands(lines[j], FeedAll(lines).value.funcs[f].body, |BodyLines(lines[..j], f)|)
  {
    var k := |BodyLines(lines[..j], f)|;
    hide EncodeLiteral, Funcs;
    if FeedAll(lines[..j + 1]).Err? {
      FeedFails(lines, j + 1);
    }
    assert lines[..j + 1][..j] == lines[..j];
    StandsThere(lines[..j + 1], f);
    FuncBody(lines, f);
    BodyGrows(lines, j + 1, f);
  }

  lemma {:induction false} StandsThere(lines: seq<Line>, f: nat)
    requires lines != [] && FeedAll(lines).Ok? && Funcs(lines[..|lines| - 1]) == f + 1
    ensures var n := |lines| - 1;
            Stands(lines[n], BodyLines(lines, f), |BodyLines(lines[..n], f)|)
  {
    hide EncodeLiteral, Funcs, Lower;
  }

  lemma {:induction false} BodyGrows(lines: seq<Line>, j: nat, f: nat)
    requires j <= |lines|
    ensures BodyLines(lines[..j], f) <= BodyLines(lines, f)
  {
    hide Instruction, Funcs;
    if j < |lines| {
      assert lines[..|lines| - 1][..j] == lines[..j];
      BodyGrows(lines[..|lines| - 1], j, f);
    } else {
      assert lines[..j] == lines;
    }
  }

  // It carries the name and frame size of the line that opens it.
  lemma {:induction false} FuncNamed(lines: seq<Line>, j: nat)
    requires FeedAll(lines).Ok? && j < |lines| && lines[j].FuncLine?
    ensures var f, fs := Funcs(lines[..j]), FeedAll(lines).value.funcs;
            f < |fs| && fs[f].name == lines[j].name && fs[f].frameSize == lines[j].frameSize
  {
    var n := |lines| - 1;
    var front := lines[..n];
    FuncsCounted(front);
    FeedNames(FeedAll(front).value, lines[n]);
    hide Feed, Funcs;
    if j < n {
      assert front[..j] == lines[..j];
      FuncNamed(front, j);
    }
  }

  lemma {:induction false} FeedNames(s: Source, line: Line)
    requires ValidSource(s) && Feed(s, line).Ok?
    ensures var fs := Feed(s, line).value.funcs;
            |s.funcs| <= |fs| && (forall f :: 0 <= f < |s.funcs| ==>
              fs[f].name == s.funcs[f].name && fs[f].frameSize == s.funcs[f].frameSize) &&
            (line.FuncLine? ==>
               |fs| == |s.funcs| + 1 && fs[|s.funcs|].name == line.name && fs[|s.funcs|].frameSize == line.frameSize)
  {
    hide EncodeLiteral, Lower;
  }

  // No line after j defines l in function f.
  ghost predicate LastAt(lines: seq<Line>, j: nat, f: nat, l: string) {
    DefinesAt(lines, j, f, l) && forall i :: j < i < |lines| ==> !DefinesAt(lines, i, f, l)
  }

  // A label stands before the instruction that follows the last line defining it.
  lemma {:induction false} LabelPosition(lines: seq<Line>, j: nat, f: nat, l: string)
    requires FeedAll(lines).Ok? && LastAt(lines, j, f, l)
    ensures var fs := FeedAll(lines).value.funcs;
            f < |fs| && l in fs[f].labels && fs[f].labels[l] == |BodyLines(lines[..j], f)|
  {
    var n := |lines| - 1;
    var front := lines[..n];
    FuncsCounted(front);
    FuncsCounted(lines);
    FeedLabels(FeedAll(front).value, lines[n], l);
    if j < n {
      assert front[..j] == lines[..j];
      forall i | j < i < n ensures !DefinesAt(front, i, f, l) {
        assert front[..i] == lines[..i] && !DefinesAt(lines, i, f, l);
      }
      hide Folds, Instruction, Feed, BodyLines;
      LabelPosition(front, j, f, l);
      assert lines[..n] == front && !DefinesAt(lines, n, f, l);
    } else {
      hide Folds, Instruction, Feed, BodyLines;
      FuncBody(front, f);
    }
  }

  lemma {:induction false} FeedLabels(s: Source, line: Line, l: string)
    requires ValidSource(s) && Feed(s, line).Ok?
    ensures |Feed(s, line).value.funcs| >= |s.funcs|
    ensures forall f: nat :: f < |s.funcs| ==>
              var was, now := s.funcs[f], Feed(s, line).value.funcs[f];
              if f + 1 == |s.funcs| && line.LabelLine? && Folds(line.name, l)
              then l in now.labels && now.labels[l] == |was.body|
              else (l in was.labels ==> l in now.labels && now.labels[l] == was.labels[l])
  {
    hide Lower, EncodeLiteral, Folds;
    if line.LabelLine? {
      LowerFolds(line.name, l);
    }
  }

  // Appending one instruction.
  lemma {:induction false} BranchSnoc(f: Func, i: Instr<string>, l: string)
    ensures BodyBranches(Append(f, i), l) <==> BodyBranches(f, l) || (i.Branch? && i.target == l)
  {
    var g := Append(f, i);
    if BodyBranches(f, l) {
      var k :| 0 <= k < |f.body| && f.body[k].Branch? && f.body[k].target == l;
      assert g.body[k] == f.body[k];
    }
    if i.Branch? && i.target == l {
      assert g.body[|f.body|] == i;
    }
  }

  // What one line adds to function f.
  lemma {:induction false} FeedStep(s: Source, line: Line, f: nat, l: string)
    requires ValidSource(s) && Feed(s, line).Ok? && f < |Feed(s, line).value.funcs|
    ensures var g := Feed(s, line).value.funcs[f];
            var here, old' := f + 1 == |s.funcs|, f < |s.funcs|;
            (l in g.labels <==>
               (old' && l in s.funcs[f].labels) || (here && line.LabelLine? && Folds(line.name, l))) &&
            (BodyBranches(g, l) <==>
               (old' && BodyBranches(s.funcs[f], l)) ||
               (here && line.InstrLine? && line.instr.Branch? && line.instr.target == l))
  {
    hide Lower, Folds, EncodeLiteral, BodyBranches;
    if line.LabelLine? {
      LowerFolds(line.name, l);
    }
    if f < |s.funcs| {
      match line
      case LoadLine(rd, literal) => BranchSnoc(s.funcs[f], Load(rd, EncodeLiteral(literal).value), l);
      case CallLine(index) => BranchSnoc(s.funcs[f], Call(index), l);
      case InstrLine(i) => BranchSnoc(s.funcs[f], i, l);
      case LabelLine(name) => SameBranches(s.funcs[f], Feed(s, line).value.funcs[f], l);
      case _ =>
    } else {
      NoBranches(Feed(s, line).value.funcs[f], l);
    }
  }

  lemma {:induction false} SameBranches(f: Func, g: Func, l: string)
    requires f.body == g.body
    ensures BodyBranches(f, l) == BodyBranches(g, l)
  {
  }

  lemma {:induction false} NoBranches(f: Func, l: string)
    requires f.body == []
    ensures !BodyBranches(f, l)
  {
  }

  // A function's labels are the lower-cased names its label lines give, its branch targets the
  // names its branch lines give, unchanged.
  lemma {:induction false} LabelsAndBranches(lines: seq<Line>, f: nat, l: string)
    requires FeedAll(lines).Ok? && f < |FeedAll(lines).value.funcs|
    ensures l in FeedAll(lines).value.funcs[f].labels <==> DefinedIn(lines, f, l)
    ensures BodyBranches(FeedAll(lines).value.funcs[f], l) <==> BranchedIn(lines, f, l)
  {
    var n := |lines| - 1;
    var front := lines[..n];
    FuncsCounted(front);
    FuncsCounted(lines);
    LinesStep(lines, f, l);
    hide Folds, BodyBranches, Feed, DefinedIn, BranchedIn;
    FeedStep(FeedAll(front).value, lines[n], f, l);
    if f < |FeedAll(front).value.funcs| {
      LabelsAndBranches(front, f, l);
    } else {
      NothingYet(front, f, l);
    }
  }

  lemma {:induction false} FuncsPrefix(lines: seq<Line>, j: nat)
    requires j <= |lines|
    ensures Funcs(lines[..j]) <= Funcs(lines)
  {
    if j < |lines| {
      assert lines[..|lines| - 1][..j] == lines[..j];
      FuncsPrefix(lines[..|lines| - 1], j);
    } else {
      assert lines[..j] == lines;
    }
  }

  lemma {:induction false} NothingYet(lines: seq<Line>, f: nat, l: string)
    requires f >= Funcs(lines)
    ensures !DefinedIn(lines, f, l) && !BranchedIn(lines, f, l)
  {
    hide Folds, Funcs;
    forall j | 0 <= j < |lines| ensures Funcs(lines[..j]) <= f {
      FuncsPrefix(lines, j);
    }
  }

  // Every branch of a text resolves exactly when its target is, letter for letter, the
  // lower-cased name on a label line of the same function.
  lemma {:induction false} TextResolves(lines: seq<Line>)
    requires ParseLines(lines).Ok?
    ensures AllDefined(ParseLines(lines).value) <==>
              forall f: nat, l {:trigger BranchedIn(lines, f, l)} :: BranchedIn(lines, f, l) ==> DefinedIn(lines, f, l)
  {
    var p := ParseLines(lines).value;
    FuncsCounted(lines);
    hide DefinedIn, BranchedIn, BodyBranches, FeedAll;
    forall f: nat, l {:trigger BranchedIn(lines, f, l)}
      ensures f >= |p| ==> !BranchedIn(lines, f, l)
      ensures f < |p| ==> (l in p[f].labels <==> DefinedIn(lines, f, l))
      ensures f < |p| ==> (BodyBranches(p[f], l) <==> BranchedIn(lines, f, l))
    {
      if f < |p| {
        LabelsAndBranches(lines, f, l);
      } else {
        NothingYet(lines, f, l);
      }
    }
    forall f: nat | f < |p|
      ensures LabelsDefined(p[f]) <==>
                forall l {:trigger BranchedIn(lines, f, l)} :: BranchedIn(lines, f, l) ==> DefinedIn(lines, f, l)
    {
      DefinedByName(p[f]);
      forall l ensures BodyBranches(p[f], l) <==> BranchedIn(lines, f, l) {
        LabelsAndBranches(lines, f, l);
      }
    }
  }

  lemma {:induction false} DefinedByName(f: Func)
    ensures LabelsDefined(f) <==> forall l {:trigger BodyBranches(f, l)} :: BodyBranches(f, l) ==> l in f.labels
  {
    if !LabelsDefined(f) {
      var k :| 0 <= k < |f.body| && f.body[k].Branch? && f.body[k].target !in f.labels;
      assert BodyBranches(f, f.body[k].target);
    }
  }

  ghost predicate OnlyLabel(lines: seq<Line>, j: nat) {
    forall i {:trigger lines[i]} :: 0 <= i < |lines| && i != j ==> !lines[i].LabelLine?
  }

  // A label line makes a reference resolvable when the reference is its name with the capitals
  // folded, so the name itself exactly when it has none.
  lemma {:induction false} LabelResolves(lines: seq<Line>, j: nat, f: nat, r: string)
    requires FeedAll(lines).Ok? && j < |lines| && lines[j].LabelLine? && Funcs(lines[..j]) == f + 1
    ensures f < |FeedAll(lines).value.funcs|
    ensures var name, labels := lines[j].name, FeedAll(lines).value.funcs[f].labels;
            (Folds(name, r) ==> r in labels) && (name in labels <==> !HasUpper(name)) &&
            (OnlyLabel(lines, j) ==> (r in labels <==> Folds(name, r)))
  {
    var name := lines[j].name;
    FuncsCounted(lines);
    FuncsPrefix(lines, j);
    LabelsAndBranches(lines, f, r);
    LabelsAndBranches(lines, f, name);
    hide Funcs, FeedAll;
    if HasUpper(name) {
      NeverDefined(lines, f, name);
    } else {
      assert Folds(name, name);
      assert DefinesAt(lines, j, f, name);
    }
    if Folds(name, r) {
      assert DefinesAt(lines, j, f, r);
    }
  }

  lemma {:induction false} NeverDefined(lines: seq<Line>, f: nat, l: string)
    requires HasUpper(l)
    ensures !DefinedIn(lines, f, l)
  {
    hide Funcs;
    forall j | 0 <= j < |lines| && lines[j].LabelLine? ensures !Folds(lines[j].name, l) {
      var k :| 0 <= k < |l| && 'A' <= l[k] <= 'Z';
      assert |lines[j].name| == |l| ==> !FoldsChar(lines[j].name[k], l[k]);
    }
  }

  // ---------- which texts assemble ----------

  // Where a branch has a label at all, the label's address takes 32 bits.
  predicate AddressAt(f: Func, base: nat, k: nat)
    requires ValidFunc(f) && k < |f.body|
  {
    f.body[k].Branch? && f.body[k].target in f.labels ==> base + Off(f.body, f.labels[f.body[k].target]) < TWO32
  }

  predicate AddressesFit(p: Program)
    requires ValidProgram(p)
  {
    CodeOffset(|p|) < TWO32 &&
    forall n, k: nat {:trigger AddressAt(p[n], Base(p, n), k)} :: 0 <= n < |p| && k < |p[n].body| ==>
      AddressAt(p[n], Base(p, n), k)
  }

  lemma {:induction false} EmittableIs(p: Program)
    requires ValidProgram(p)
    ensures Emittable(p) <==> AllDefined(p) && AddressesFit(p)
  {
    hide Base, Off;
    if Emittable(p) {
      FitsDefined(p);
      forall n, k: nat | 0 <= n < |p| && k < |p[n].body| ensures AddressAt(p[n], Base(p, n), k) {
        assert Fits(p[n], Base(p, n));
        assert FitsAt(p[n], Base(p, n), k);
      }
    }
    if AllDefined(p) && AddressesFit(p) {
      forall n | 0 <= n < |p| ensures Fits(p[n], Base(p, n)) {
        assert LabelsDefined(p[n]);
        forall k: nat | k < |p[n].body| ensures FitsAt(p[n], Base(p, n), k) {
          assert AddressAt(p[n], Base(p, n), k);
        }
      }
    }
  }

  // Where all labels are defined, what is reported is an address past 32 bits; where the addresses
  // fit, it is an undefined label.
  lemma {:induction false} FaultIs(p: Program, e: AsmError)
    requires ValidProgram(p) && EmitFault(p, e)
    ensures AllDefined(p) ==> e == AddressOutOfRange
    ensures AddressesFit(p) ==> e == UndefinedLabel
  {
    hide Base, Off;
    if n: nat :| n < |p| && LinkFault(p, n, e) {
      var k: nat :| k < |p[n].body| && FaultAt(p[n], Base(p, n), k, e);
      assert AllDefined(p) ==> LabelsDefined(p[n]);
      assert AddressesFit(p) ==> AddressAt(p[n], Base(p, n), k);
    }
  }

  // A well-formed text assembles exactly when every branch target is, letter for letter, the
  // lower-cased name on a label line of the same function, and the addresses fit.
  lemma {:induction false} TextAssembles(lines: seq<Line>)
    requires ParseLines(lines).Ok?
    ensures Emittable(ParseLines(lines).value) <==>
              (forall f: nat, l {:trigger BranchedIn(lines, f, l)} ::
                 BranchedIn(lines, f, l) ==> DefinedIn(lines, f, l)) &&
              AddressesFit(ParseLines(lines).value)
  {
    hide Emittable, AddressesFit, AllDefined, BranchedIn, DefinedIn;
    TextResolves(lines);
    EmittableIs(ParseLines(lines).value);
  }

  // Definitions are lower-cased and references are not: a reference with an upper-case letter
  // keeps a text from assembling, even when the text defines that very label.
  lemma {:induction false} MixedCaseNeverAssembles(lines: seq<Line>, f: nat, l: string)
    requires ParseLines(lines).Ok? && BranchedIn(lines, f, l) && HasUpper(l)
    ensures !Emittable(ParseLines(lines).value)
  {
    hide Emittable, AddressesFit, BranchedIn, DefinedIn;
    TextAssembles(lines);
    NeverDefined(lines, f, l);
  }

  function LoopText(name: string, ref: string): seq<Line> {
    [FuncLine("main", 0), LabelLine(name), InstrLine(Branch(Eq, ref)), EndFuncLine]
  }

  function LoopFunc(name: string, ref: string): Func {
    Func("main", 0, [Branch(Eq, ref)], map[Lower(name) := 0])
  }

  lemma {:induction false} LoopParses(name: string, ref: string)
    ensures FeedAll(LoopText(name, ref)) == Ok(Source([LoopFunc(name, ref)], false))
  {
    hide Lower, FeedAll, EncodeLiteral;
    var t := LoopText(name, ref);
    var f := Func("main", 0, [], map[]);
    var g := f.(labels := map[Lower(name) := 0]);
    FeedFirst("main", 0);
    FeedSnoc([t[0]], t[1]);
    FeedSnoc([t[0], t[1]], t[2]);
    FeedSnoc([t[0], t[1], t[2]], t[3]);
    assert SetLast([f], g) == [g];
    assert [t[0], t[1]] == [t[0]] + [t[1]] && [t[0], t[1], t[2]] == [t[0], t[1]] + [t[2]];
    assert t == [t[0], t[1], t[2]] + [t[3]];
    assert Append(g, t[2].instr) == LoopFunc(name, ref);
    assert SetLast([g], LoopFunc(name, ref)) == [LoopFunc(name, ref)];
  }

  // A loop on a label spelled `Loop` in both places is well-formed and does not assemble; with the
  // reference spelled `loop`, it does.
  lemma {:induction false} LoopExample()
    ensures ParseLines(LoopText("Loop", "Loop")).Ok? && !Emittable(ParseLines(LoopText("Loop", "Loop")).value)
    ensures ParseLines(LoopText("Loop", "loop")).Ok? && Emittable(ParseLines(LoopText("Loop", "loop")).value)
  {
    hide Emittable, FeedAll, AllDefined, AddressesFit;
    LoopParses("Loop", "Loop");
    LoopParses("Loop", "loop");
    assert Folds("Loop", "loop");
    LowerFolds("Loop", "loop");
    EmittableIs([LoopFunc("Loop", "Loop")]);
    EmittableIs([LoopFunc("Loop", "loop")]);
    LoopDefined("Loop", "Loop");
    LoopDefined("Loop", "loop");
    assert "Loop" != "loop" by {
      assert "Loop"[0] != "loop"[0];
    }
  }

  lemma {:induction false} LoopDefined(name: string, ref: string)
    ensures AllDefined([LoopFunc(name, ref)]) <==> Lower(name) == ref
    ensures AddressesFit([LoopFunc(name, ref)])
  {
    hide Lower;
    var p := [LoopFunc(name, ref)];
    assert LabelsDefined(p[0]) <==> Lower(name) == ref by {
      assert p[0].body[0].Branch?;
    }
    assert Base(p, 0) == 40;
  }
}
