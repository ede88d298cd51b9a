/** Assembled programs do what the labelled source says. */
module AsmProof {
  import opened Words
  import opened Inst
  import opened Asm
  import Machine

  // ----- what labels mean -----

  /** Instructions among the first `k` lines. */
  ghost function CodeCount(lines: seq<string>, k: nat): nat
    requires k <= |lines|
  {
    if k == 0 then 0
    else CodeCount(lines, k - 1) + if IsCode(lines[k - 1]) then 1 else 0
  }

  ghost predicate IsCode(line: string) { ParseLine(line).Ok? && ParseLine(line).value.Code? }

  ghost predicate Defines(line: string, name: string) { ParseLine(line) == Ok(Label(name)) }

  /** The last of the first `k` lines that defines `name`. */
  ghost function LastDefinition(lines: seq<string>, name: string, k: nat): Option<nat>
    requires k <= |lines|
  {
    if k == 0 then None
    else if Defines(lines[k - 1], name) then Some(k - 1)
    else LastDefinition(lines, name, k - 1)
  }

  /** What pass 1 has gathered from the first `i` lines. */
  ghost predicate Gathered(lines: seq<string>, i: nat, labels: Labels, raw: seq<(nat, RawInst)>)
    requires i <= |lines|
  {
    && |raw| == CodeCount(lines, i)
    && (forall name :: name in labels <==> LastDefinition(lines, name, i).Some?)
    && (forall name :: name in labels ==>
          LastDefinition(lines, name, i).value < i && labels[name] == CodeCount(lines, LastDefinition(lines, name, i).value))
    && (forall k :: 0 <= k < |raw| ==> RawFrom(lines, i, raw[k], k))
  }

  /** Raw instruction `k` is the code line with `k` code lines before it. */
  ghost predicate RawFrom(lines: seq<string>, i: nat, r: (nat, RawInst), k: nat)
    requires i <= |lines|
  {
    1 <= r.0 <= i && ParseLine(lines[r.0 - 1]) == Ok(Code(r.1)) && CodeCount(lines, r.0 - 1) == k
  }

  lemma GatherStep(lines: seq<string>, i: nat, labels: Labels, raw: seq<(nat, RawInst)>)
    requires i < |lines| && Gathered(lines, i, labels, raw) && ParseLine(lines[i]).Ok?
    ensures match ParseLine(lines[i]).value
            case Blank => Gathered(lines, i + 1, labels, raw)
            case Label(name) => Gathered(lines, i + 1, labels[name := |raw|], raw)
            case Code(r) => Gathered(lines, i + 1, labels, raw + [(i + 1, r)])
  {
    hide ParseLine;
    match ParseLine(lines[i]).value
    case Blank => assert forall k :: 0 <= k < |raw| ==> RawFrom(lines, i + 1, raw[k], k);
    case Label(name) => assert forall k :: 0 <= k < |raw| ==> RawFrom(lines, i + 1, raw[k], k);
    case Code(r) =>
      var next := raw + [(i + 1, r)];
      forall k | 0 <= k < |next| ensures RawFrom(lines, i + 1, next[k], k) {
        if k < |raw| { assert RawFrom(lines, i, raw[k], k); }
      }
  }

  lemma {:induction false} CollectGathers(lines: seq<string>, i: nat, labels: Labels, raw: seq<(nat, RawInst)>)
    requires i <= |lines| && Gathered(lines, i, labels, raw)
    ensures match Collect(lines, i, labels, raw)
            case Ok(r) => Gathered(lines, |lines|, r.0, r.1)
            case Err(_) => true
    decreases |lines| - i
  {
    hide ParseLine, Gathered;
    if i < |lines| && ParseLine(lines[i]).Ok? {
      GatherStep(lines, i, labels, raw);
      match ParseLine(lines[i]).value
      case Blank => CollectGathers(lines, i + 1, labels, raw);
      case Label(name) => CollectGathers(lines, i + 1, labels[name := |raw|], raw);
      case Code(r) => CollectGathers(lines, i + 1, labels, raw + [(i + 1, r)]);
    }
  }

  ghost function Pass1(source: string): Result<(Labels, seq<(nat, RawInst)>), AsmError> {
    Collect(Lines(source), 0, map[], [])
  }

  /** A label is the number of instructions before its last definition, and instruction `k` is the `k`-th code line. */
  lemma LabelsCountInstructions(source: string)
    requires Pass1(source).Ok?
    ensures Gathered(Lines(source), |Lines(source)|, Pass1(source).value.0, Pass1(source).value.1)
    ensures forall name :: name in Pass1(source).value.0 ==> Pass1(source).value.0[name] <= |Pass1(source).value.1|
  {
    var lines := Lines(source);
    var (labels, raw) := Pass1(source).value;
    assert Gathered(lines, 0, map[], []);
    CollectGathers(lines, 0, map[], []);
    forall name | name in labels ensures labels[name] <= |raw| {
      CodeCountGrows(lines, LastDefinition(lines, name, |lines|).value, |lines|);
    }
  }

  lemma {:induction false} CodeCountGrows(lines: seq<string>, j: nat, k: nat)
    requires j <= k <= |lines|
    ensures CodeCount(lines, j) <= CodeCount(lines, k)
    decreases k
  {
    hide IsCode;
    if j < k { CodeCountGrows(lines, j, k - 1); }
  }

  // ----- resolution -----

  lemma {:induction false} ResolvesEach(labels: Labels, raw: seq<(nat, RawInst)>, i: nat, done: seq<Inst>)
    requires i <= |raw| && |done| == i
    requires forall k :: 0 <= k < i ==> ResolveOne(labels, k, raw[k].1) == Ok(done[k])
    ensures match ResolveAll(labels, raw, i, done)
            case Ok(p) => |p| == |raw| && forall k :: 0 <= k < |raw| ==> ResolveOne(labels, k, raw[k].1) == Ok(p[k])
            case Err(e) => exists k :: 0 <= k < |raw| && ResolveOne(labels, k, raw[k].1).Err?
                                       && e == AsmError(raw[k].0, ResolveOne(labels, k, raw[k].1).error)
                                       && forall j :: 0 <= j < k ==> ResolveOne(labels, j, raw[j].1).Ok?
    decreases |raw| - i
  {
    hide ResolveOne;
    if i < |raw| && ResolveOne(labels, i, raw[i].1).Ok? {
      ResolvesEach(labels, raw, i + 1, done + [ResolveOne(labels, i, raw[i].1).value]);
    }
  }

  /** The parser itself never produces a jump: those always name a label. */
  lemma ParsedIsPlain(line: string)
    ensures IsCode(line) && ParseLine(line).value.raw.Resolved? ==> Plain(ParseLine(line).value.raw.inst)
  {
    hide Lower, Tokens, Trim, TrimColons, StripComment, ParseReg, ParseU64;
  }

  predicate Plain(i: Inst) { !i.Jz? && !i.Jump? && !i.Call? }

  /** The labelled program behind a successful assembly. */
  ghost predicate Assembled(source: string, p: Program) { AssembleText(source) == Ok(p) }

  lemma AssembledResolves(source: string, p: Program)
    requires Assembled(source, p)
    ensures Pass1(source).Ok? && |Pass1(source).value.1| == |p|
    ensures var (labels, raw) := Pass1(source).value;
            && (forall k :: 0 <= k < |p| ==> ResolveOne(labels, k, raw[k].1) == Ok(p[k]))
            && (forall k :: 0 <= k < |p| && raw[k].1.Resolved? ==> Plain(p[k]))
            && (forall name :: name in labels ==> labels[name] <= |p|)
  {
    hide ParseLine, ResolveOne, Lines;
    var (labels, raw) := Pass1(source).value;
    LabelsCountInstructions(source);
    ResolvesEach(labels, raw, 0, []);
    forall k | 0 <= k < |p| && raw[k].1.Resolved? ensures Plain(p[k]) {
      assert RawFrom(Lines(source), |Lines(source)|, raw[k], k);
      ParsedIsPlain(Lines(source)[raw[k].0 - 1]);
      PlainResolves(labels, k, raw[k].1);
    }
  }

  lemma PlainResolves(labels: Labels, k: nat, raw: RawInst)
    requires raw.Resolved?
    ensures ResolveOne(labels, k, raw) == Ok(raw.inst)
  {
  }

  // ----- running the labelled program -----

  /** One step of the labelled program: a branch goes where its label points. */
  ghost function LabelledStep(labels: Labels, raw: seq<(nat, RawInst)>, vm: Machine.VM): (Machine.VM, Machine.StepResult)
    requires Machine.WellFormed(vm) && vm.pc + 1 < TWO64
    requires forall name :: name in labels ==> labels[name] < TWO64
  {
    if vm.pc >= |raw| then (vm, Machine.Halted)
    else
      var r := raw[vm.pc].1;
      if r.Resolved? then
        if r.inst.Halt? then (vm, Machine.Halted)
        else
          match Machine.Execute(r.inst, vm)
          case Ok(next) => (next.(steps := vm.steps + 1), Machine.Continue)
          case Err(e) => (vm, Machine.Error(e))
      else if r.name !in labels then (vm, Machine.Halted)
      else
        var target := labels[r.name];
        match r
        case JzLabel(cond, _) => Branch(vm, if vm.regs[cond] == 0 then target else vm.pc + 1)
        case JmpLabel(_) => Branch(vm, target)
        case CallLabel(_) => Branch(vm.(callStack := vm.callStack + [vm.pc + 1]), target)
        case Resolved(_) => (vm, Machine.Halted)
  }

  function Branch(vm: Machine.VM, pc: usize): (Machine.VM, Machine.StepResult) {
    (vm.(pc := pc, steps := vm.steps + 1), Machine.Continue)
  }

  /** Step for step, in every state, the assembled program does what the labelled one says. */
  lemma AssembledSimulates(source: string, p: Program, vm: Machine.VM)
    requires Assembled(source, p) && Machine.WellFormed(vm) && vm.pc <= |p|
    ensures Pass1(source).Ok? && (forall name :: name in Pass1(source).value.0 ==> Pass1(source).value.0[name] < TWO64)
    ensures Machine.Step(p, vm) == LabelledStep(Pass1(source).value.0, Pass1(source).value.1, vm)
  {
    hide AssembleText, Pass1, Machine.DoSyscall, Machine.Access, Machine.Value;
    AssembledResolves(source, p);
    var (labels, raw) := Pass1(source).value;
    if vm.pc < |p| {
      StepResolved(labels, raw[vm.pc].1, p, vm);
    }
  }

  lemma StepResolved(labels: Labels, r: RawInst, p: Program, vm: Machine.VM)
    requires Machine.WellFormed(vm) && vm.pc < |p| && ResolveOne(labels, vm.pc, r) == Ok(p[vm.pc])
    requires forall name :: name in labels ==> labels[name] <= |p|
    requires r.Resolved? ==> Plain(p[vm.pc])
    ensures r.Resolved? ==> p[vm.pc] == r.inst
    ensures !r.Resolved? ==> r.name in labels && !p[vm.pc].Halt?
    ensures r.JzLabel? ==> Machine.Step(p, vm) == Branch(vm, if vm.regs[r.cond] == 0 then labels[r.name] else vm.pc + 1)
    ensures r.JmpLabel? ==> Machine.Step(p, vm) == Branch(vm, labels[r.name])
    ensures r.CallLabel? ==> Machine.Step(p, vm) == Branch(vm.(callStack := vm.callStack + [vm.pc + 1]), labels[r.name])
  {
  }

  // ----- control never leaves the program -----

  /** `pc` and every return address lie in the program or just behind it. */
  ghost predicate InProgram(p: Program, vm: Machine.VM) {
    vm.pc <= |p| && forall k :: 0 <= k < |vm.callStack| ==> vm.callStack[k] <= |p|
  }

  lemma StepStaysInProgram(source: string, p: Program, vm: Machine.VM)
    requires Assembled(source, p) && Machine.WellFormed(vm) && InProgram(p, vm)
    ensures InProgram(p, Machine.Step(p, vm).0)
  {
    hide AssembleText, Pass1, Machine.DoSyscall, Machine.Access, Machine.Value;
    AssembledResolves(source, p);
    var (labels, raw) := Pass1(source).value;
    if vm.pc < |p| {
      var r := raw[vm.pc].1;
      StepResolved(labels, r, p, vm);
      if r.Resolved? {
        PlainStays(p, vm);
      }
    }
  }

  lemma PlainStays(p: Program, vm: Machine.VM)
    requires Machine.WellFormed(vm) && InProgram(p, vm) && vm.pc < |p| && Plain(p[vm.pc])
    ensures InProgram(p, Machine.Step(p, vm).0)
  {
    hide Machine.Value;
    if p[vm.pc].Syscall? && Machine.DoSyscall(vm, p[vm.pc].num).Ok? {
      Machine.SyscallKeeps(vm, p[vm.pc].num);
    }
  }

  /** In every run of an assembled program from its initial state `pc` and all return addresses stay within 0..=len. */
  lemma AssembledRunsInside(source: string, p: Program, n: nat)
    requires Assembled(source, p)
    ensures Machine.WellFormed(Machine.New(p)) && InProgram(p, Machine.StepN(p, Machine.New(p), n))
  {
    Machine.NewWellFormed(p);
    RunStaysInProgram(source, p, Machine.New(p), n);
  }

  lemma {:induction false} RunStaysInProgram(source: string, p: Program, vm: Machine.VM, n: nat)
    requires Assembled(source, p) && Machine.WellFormed(vm) && InProgram(p, vm)
    ensures InProgram(p, Machine.StepN(p, vm, n))
    decreases n
  {
    hide Machine.Step, Machine.WellFormed, AssembleText, InProgram;
    if n > 0 {
      Machine.StepKeeps(p, vm);
      StepStaysInProgram(source, p, vm);
      RunStaysInProgram(source, p, Machine.Step(p, vm).0, n - 1);
    }
  }
}
