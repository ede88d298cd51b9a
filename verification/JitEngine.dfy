/** Which programs the engine compiles, and what running the compiled form of one does to a machine. */
module JitEngine {
  import opened Words
  import opened Inst
  import opened BlockGraph
  import opened Jit
  import opened JitProof
  import Machine
  import Vm

  const HOT_THRESHOLD := 1000

  // ----- the shape of the graph -----

  /** Every control instruction is the last one of the block it lies in. */
  lemma ControlEndsBlock(p: Program, l: nat, pc: nat)
    requires l <= pc < |p| && IsControl(p[pc]) && pc < NextLeader(p, l)
    ensures NextLeader(p, l) == pc + 1
  {
    ControlStartsNext(p, pc);
  }

  /** The terminator of a block is that of the control instruction inside it. */
  lemma {:induction false} TerminatorOf(p: Program, l: nat, pc: nat, end: nat)
    requires Supported(p) && l <= pc < end <= |p|
    requires forall k :: l <= k < pc ==> !IsControl(p[k])
    ensures Code(p, l, end).1 == Code(p, pc, end).1
    decreases pc - l
  {
    hide Supported, Compiles, Translate, CheckedTarget, Order, VarOf;
    if l < pc {
      SupportedAt(p, l);
      TerminatorOf(p, l + 1, pc, end);
    }
  }

  ghost function LeaderBefore(p: Program, pc: nat): (l: nat)
    requires pc < |p|
    ensures l <= pc && IsLeader(p, l) && forall k :: l < k <= pc ==> !IsLeader(p, k)
  {
    if IsLeader(p, pc) then pc else LeaderBefore(p, pc - 1)
  }

  lemma {:induction false} CodeTargets(p: Program, pc: nat, end: nat)
    requires Supported(p) && pc < end <= |p| && IsLeader(p, end)
    ensures !Code(p, pc, end).1.Return?
    ensures forall t :: t in Targets(Code(p, pc, end).1) ==> t <= |p| && IsLeader(p, t)
    ensures 0 in Targets(Code(p, pc, end).1) ==> exists k :: pc <= k < end && BranchTarget(p, k) == Some(0)
    decreases end - pc
  {
    hide Supported, Order, VarOf, Translate, IsLeader, LeaderFrom, CheckedTarget;
    SupportedAt(p, pc);
    if IsControl(p[pc]) {
      ControlLeaders(p, pc);
      if 0 in Targets(Code(p, pc, end).1) {
        assert BranchTarget(p, pc) == Some(0);
      }
    } else if pc + 1 < end {
      CodeTargets(p, pc + 1, end);
    }
  }

  /** The graph obeys the argument-count rule exactly when no branch goes back to the first instruction. */
  lemma ArityRule(p: Program, f: Func)
    requires Supported(p) && IsGraphOf(p, f)
    ensures ArgumentsMatch(f) <==> NoBranchToEntry(p)
  {
    hide *;
    if NoBranchToEntry(p) {
      NoBranchMeansMatch(p, f);
    } else {
      BranchMeansMismatch(p, f);
    }
  }

  lemma NoBranchMeansMatch(p: Program, f: Func)
    requires Supported(p) && IsGraphOf(p, f) && NoBranchToEntry(p)
    ensures ArgumentsMatch(f)
  {
    hide IsGraphOf, Supported, NoBranchToEntry;
    forall b, t | b in f.blocks && t in Targets(f.blocks[b].end)
      ensures t in f.blocks && f.blocks[t].params == 0
    {
      JumpTargetOk(p, f, b, t);
    }
  }

  lemma JumpTargetOk(p: Program, f: Func, b: nat, t: nat)
    requires Supported(p) && IsGraphOf(p, f) && NoBranchToEntry(p)
    requires b in f.blocks && t in Targets(f.blocks[b].end)
    ensures t in f.blocks && f.blocks[t].params == 0
  {
    hide Code, Prologue, Epilogue, Supported, NoBranchToEntry, Order, IsLeader, NextLeader, BranchTarget;
    EntryTargets(p);
    assert f.blocks[b] == BlockAt(p, b);
    if b < |p| {
      CodeTargets(p, b, NextLeader(p, b));
    }
  }

  lemma BranchMeansMismatch(p: Program, f: Func)
    requires Supported(p) && IsGraphOf(p, f) && !NoBranchToEntry(p)
    ensures !ArgumentsMatch(f)
  {
    hide Code, Prologue, Epilogue, Supported, Order, IsLeader, NextLeader, BranchTarget;
    EndsAreLeaders(p);
    EntryTargets(p);
    var pc :| 0 <= pc < |p| && BranchTarget(p, pc) == Some(0);
    var l := LeaderBefore(p, pc);
    BlockOfControl(p, l, pc);
    assert f.blocks[l] == BlockAt(p, l) && f.blocks[0] == BlockAt(p, 0);
    assert 0 in Targets(f.blocks[l].end) && f.blocks[0].params == 1;
  }

  lemma ControlStartsNext(p: Program, pc: nat)
    requires pc < |p|
    ensures IsControl(p[pc]) ==> IsLeader(p, pc + 1)
  {
    if IsControl(p[pc]) {
      assert LeaderFrom(p, pc, pc + 1);
    }
  }

  lemma BlockOfControl(p: Program, l: nat, pc: nat)
    requires Supported(p) && pc < |p| && l == LeaderBefore(p, pc) && BranchTarget(p, pc) == Some(0)
    ensures 0 in Targets(Code(p, l, NextLeader(p, l)).1)
  {
    SupportedAt(p, pc);
    forall k | l <= k < pc ensures !IsControl(p[k]) {
      ControlStartsNext(p, k);
    }
    var end := NextLeader(p, l);
    assert pc < end;
    TerminatorOf(p, l, pc, end);
  }

  // ----- why a branch to the first instruction has to be refused -----

  /** jz r0, +3; load r0, 0; jump -2 */
  function LoopToEntry(): Program { [Jz(0, 3), LoadImm(0, 0), Inst.Jump(-2)] }

  lemma LoopToEntryGraph(f: Func)
    requires Supported(LoopToEntry()) && IsGraphOf(LoopToEntry(), f)
    ensures 0 in f.blocks && f.blocks[0] == Block(1, [DefVar(1, LoadReg(0))], BrIfZero(1, 3, 1))
    ensures 1 in f.blocks && f.blocks[1] == Block(0, [DefVar(1, IConst(0))], BlockGraph.Jump(0))
  {
    hide Supported, Compiles, IsLeader, Order, VarOf, Code, NextLeader;
    var p := LoopToEntry();
    LoopToEntryOrder();
    LoopToEntryLeaders();
    LoopToEntryCode();
    EndsAreLeaders(p);
    assert |p| == 3;
    assert Prologue([0]) == [DefVar(1, LoadReg(0))];
    assert f.blocks[0] == BlockAt(p, 0) && f.blocks[1] == BlockAt(p, 1);
  }

  lemma LoopToEntryOrder()
    ensures Order(LoopToEntry()) == [0] && VarOf([0], 0) == 1
  {
    var p := LoopToEntry();
    assert Touched(p, 1) == {0} && Touched(p, 2) == {0} && Touched(p, 3) == {0};
    assert Order(p) == [0] by {
      assert 0 in Order(p);
      assert forall i :: 0 <= i < |Order(p)| ==> Order(p)[i] in Order(p);
    }
  }

  lemma LoopToEntryLeaders()
    ensures IsLeader(LoopToEntry(), 1) && NextLeader(LoopToEntry(), 0) == 1 && NextLeader(LoopToEntry(), 1) == 3
  {
    var p := LoopToEntry();
    assert LeaderFrom(p, 0, 1);
    forall pc: nat ensures !LeaderFrom(p, pc, 2) {
      assert pc < |p| ==> p[pc] in [Jz(0, 3), LoadImm(0, 0), Inst.Jump(-2)];
    }
  }

  lemma LoopToEntryCode()
    requires Supported(LoopToEntry())
    ensures Code(LoopToEntry(), 0, 1) == ([], BrIfZero(1, 3, 1))
    ensures Code(LoopToEntry(), 1, 3) == ([DefVar(1, IConst(0))], BlockGraph.Jump(0))
  {
    hide Order, VarOf, Compiles, Supported;
    LoopToEntryOrder();
    var p := LoopToEntry();
    assert p[1] == LoadImm(0, 0) && Translate(p[1], [0]) == DefVar(1, IConst(0));
    assert Code(p, 2, 3) == ([], BlockGraph.Jump(0));
    CodeStep(p, 1, 3);
    var c := Translate(p[1], Order(p));
    assert c == DefVar(1, IConst(0));
    assert [c] + Code(p, 2, 3).0 == [c];
  }

  lemma CodeStep(p: Program, pc: nat, end: nat)
    requires Supported(p) && pc < end <= |p| && !IsControl(p[pc])
    ensures Names(p[pc]) != {} && (forall r :: r in Names(p[pc]) ==> r in Order(p))
    ensures Code(p, pc, end) == ([Translate(p[pc], Order(p))] + Code(p, pc + 1, end).0, Code(p, pc + 1, end).1)
  {
    hide Order, Translate, VarOf, Compiles, Supported;
    SupportedAt(p, pc);
    TouchedCovers(p, pc);
  }

  lemma {:induction false} LoopToEntryNeverReturns(f: Func, s: State, fuel: nat)
    requires Supported(LoopToEntry()) && IsGraphOf(LoopToEntry(), f)
    requires |s.mem| == 256 && s.mem[0] == 1
    ensures RunBlocks(f, 0, s, fuel) == None
    decreases fuel
  {
    hide IsGraphOf, Supported, LoopToEntry;
    LoopToEntryGraph(f);
    if fuel >= 2 {
      var s0 := Exec1(DefVar(1, LoadReg(0)), s);
      var s1 := Exec1(DefVar(1, IConst(0)), s0);
      assert Exec([DefVar(1, LoadReg(0))], s) == s0;
      assert Exec([DefVar(1, IConst(0))], s0) == s1;
      LoopToEntryNeverReturns(f, s1, fuel - 2);
      assert RunBlocks(f, 1, s0, fuel - 1) == RunBlocks(f, 0, s1, fuel - 2);
    }
  }

  /** Re-running the loads undoes the loop: the interpreter halts, the graph would spin for ever. */
  lemma BranchToEntryDiverges(f: Func, vm: Machine.VM)
    requires Machine.WellFormed(vm) && vm.pc == 0 && vm.regs[0] == 1
    requires Supported(LoopToEntry()) ==> IsGraphOf(LoopToEntry(), f)
    ensures Supported(LoopToEntry())
    ensures exists final :: Machine.RunsTo(LoopToEntry(), vm, final, Machine.Halted) && final.regs == vm.regs[0 := 0]
    ensures forall fuel: nat :: CallFunc(f, vm.regs, fuel) == None
  {
    var p := LoopToEntry();
    assert p[0] == Jz(0, 3) && p[1] == LoadImm(0, 0) && p[2] == Inst.Jump(-2);
    assert Compiles(p[0], 0, 3) && Compiles(p[1], 1, 3) && Compiles(p[2], 2, 3);
    assert Supported(p);
    forall fuel: nat ensures CallFunc(f, vm.regs, fuel) == None {
      LoopToEntryNeverReturns(f, State(map[], vm.regs), fuel);
    }
    LoopToEntryHalts(vm);
  }

  lemma LoopToEntryHalts(vm: Machine.VM)
    requires Machine.WellFormed(vm) && vm.pc == 0 && vm.regs[0] == 1
    ensures exists final :: Machine.RunsTo(LoopToEntry(), vm, final, Machine.Halted) && final.regs == vm.regs[0 := 0]
  {
    var p := LoopToEntry();
    assert p[0] == Jz(0, 3) && p[1] == LoadImm(0, 0) && p[2] == Inst.Jump(-2);
    FourSteps(p, vm);
    var v1, v2, v3, v4 := Machine.StepN(p, vm, 1), Machine.StepN(p, vm, 2), Machine.StepN(p, vm, 3), Machine.StepN(p, vm, 4);
    assert v1.pc == 1 && v2.pc == 2 && v3.pc == 0;
    assert v4.pc == 3 && v4.regs == vm.regs[0 := 0];
    assert Machine.Step(p, v4).1 == Machine.Halted;
    assert Machine.StopsAfter(p, vm, 4, v4, Machine.Halted);
  }

  lemma FourSteps(p: Program, vm: Machine.VM)
    requires Machine.WellFormed(vm)
    ensures Machine.StepN(p, vm, 0) == vm
    ensures forall k: nat :: k < 4 ==> Machine.StepN(p, vm, k + 1) == Machine.Step(p, Machine.StepN(p, vm, k)).0
  {
    hide Machine.Step, Machine.WellFormed;
    forall k: nat | k < 4
      ensures Machine.StepN(p, vm, k + 1) == Machine.Step(p, Machine.StepN(p, vm, k)).0
    {
      Vm.OneMore(p, vm, k);
    }
  }

  // ----- the engine -----

  /** Carry out a compiled function; `fuel` is any number of blocks within which it returns. */
  method Execute(f: Func, regs: seq<u64>, ghost fuel: nat) returns (r: seq<u64>)
    requires CallFunc(f, regs, fuel).Some?
    ensures CallFunc(f, regs, fuel) == Some(r)
  {
    var b, s := f.entry, State(map[], regs);
    ghost var left: nat := fuel;
    while true
      invariant left <= fuel && RunBlocks(f, b, s, left) == CallFunc(f, regs, fuel)
      decreases left
    {
      var block := f.blocks[b];
      s := Exec(block.body, s);
      if block.end.Return? {
        return s.mem;
      }
      b := Next(block.end, s);
      left := left - 1;
    }
  }

  class JitEngine {
    var counts: map<ProgramId, nat>
    var compiled: map<ProgramId, Func>

    ghost predicate Valid()
      reads this
    {
      forall id :: id in compiled ==> Compiled(id.instructions, compiled[id])
    }

    constructor ()
      ensures Valid() && counts == map[] && compiled == map[]
    {
      counts, compiled := map[], map[];
    }

    /** Compilation succeeds exactly for supported programs without a branch to instruction 0. */
    method CompileProgram(p: Program) returns (r: Result<(), JitError>)
      requires Valid()
      modifies this`compiled
      ensures Valid() && old(compiled.Keys) <= compiled.Keys <= old(compiled.Keys) + {IdOf(p)}
      ensures r.Ok? <==> Supported(p) && NoBranchToEntry(p)
      ensures r.Ok? <==> IdOf(p) in compiled
      ensures r.Err? ==> (r.error.Compile? <==> Supported(p)) && !r.error.NotAtEntry?
      ensures forall id :: id in old(compiled) ==> compiled[id] == old(compiled)[id]
    {
      if IdOf(p) in compiled {
        assert Compiled(IdOf(p).instructions, compiled[IdOf(p)]);
        return Ok(());
      }
      var valid := ValidateProgram(p);
      if valid.Err? {
        return valid;
      }
      var f := BuildFunction(p);
      ArityRule(p, f);
      // define_function runs the IR verifier
      if !ArgumentsMatch(f) {
        return Err(JitError.Compile);
      }
      compiled := compiled[IdOf(p) := f];
      r := Ok(());
    }

    /** Running the compiled form leaves the registers where the interpreter would, and `pc` at the end; nothing else moves. */
    method RunCompiled(p: Program, vm: Vm.VMState) returns (r: Result<(), JitError>)
      requires Valid() && vm.Valid()
      requires WouldRun(p, vm.pc) ==> Halts(p, vm.State())
      modifies this`compiled, vm`regs, vm`pc
      ensures Valid() && vm.heap.Valid()
      ensures r.Ok? <==> old(vm.pc) == 0 && Supported(p) && NoBranchToEntry(p)
      ensures r.Ok? ==> JitResult(p, old(vm.State()), vm.State())
      ensures r.Err? ==> vm.State() == old(vm.State())
      ensures r.Err? ==> (r.error.NotAtEntry? <==> old(vm.pc) != 0)
      ensures r.Err? && old(vm.pc) == 0 ==> (r.error.Compile? <==> Supported(p))
    {
      hide Machine.WellFormed, Machine.RunsTo, IsGraphOf, Supported, NoBranchToEntry, CallFunc, Compiles;
      if vm.pc != 0 {
        return Err(NotAtEntry);
      }
      if IdOf(p) !in compiled {
        var done := CompileProgram(p);
        if done.Err? {
          return done;
        }
      }
      var f := compiled[IdOf(p)];
      assert Compiled(IdOf(p).instructions, f);
      ghost var before := vm.State();
      ghost var final :| Machine.RunsTo(p, before, final, Machine.Halted);
      CompiledMatchesInterpreter(p, f, before, final.regs);
      ghost var fuel: nat :| CallFunc(f, vm.regs, fuel) == Some(final.regs);
      vm.regs := Execute(f, vm.regs, fuel);
      vm.pc := |p|;
      assert vm.State() == before.(regs := final.regs, pc := |p|);
      r := Ok(());
    }

    /** The tiering rule: interpret up to the threshold, then compile once and run the compiled form. */
    method RunHot(p: Program, vm: Vm.VMState) returns (r: Result<bool, JitError>)
      requires Valid() && vm.Valid()
      requires HotCount(counts, p) >= 1000 && WouldRun(p, vm.pc) ==> Halts(p, vm.State())
      modifies this, vm`regs, vm`pc
      ensures Valid() && vm.heap.Valid()
      ensures counts == old(counts)[IdOf(p) := HotCount(old(counts), p) + 1]
      ensures r == Ok(true) <==> HotCount(counts, p) > 1000 && Supported(p) && NoBranchToEntry(p) && old(vm.pc) == 0
      ensures r.Err? <==> HotCount(counts, p) > 1000 && Supported(p) && !WouldRun(p, old(vm.pc))
      ensures r.Err? ==> (r.error.Compile? <==> !NoBranchToEntry(p))
      ensures r == Ok(true) ==> JitResult(p, old(vm.State()), vm.State())
      ensures r != Ok(true) ==> vm.State() == old(vm.State())
    {
      hide Machine.WellFormed, Machine.RunsTo, IsGraphOf, Supported, NoBranchToEntry;
      var count := HotCount(counts, p) + 1;
      counts := counts[IdOf(p) := count];
      if count <= HOT_THRESHOLD {
        return Ok(false);
      }
      if IdOf(p) !in compiled {
        var done := CompileProgram(p);
        if done.Err? {
          return if done.error.Compile? then Err(done.error) else Ok(false);
        }
      }
      var ran := RunCompiled(p, vm);
      r := if ran.Err? then Err(ran.error) else Ok(true);
    }
  }

  function HotCount(counts: map<ProgramId, nat>, p: Program): nat {
    if IdOf(p) in counts then counts[IdOf(p)] else 0
  }

  ghost predicate Compiled(p: Program, f: Func) {
    Supported(p) && NoBranchToEntry(p) && IsGraphOf(p, f)
  }

  /** Called at `pc`, the compiled form would be executed. */
  ghost predicate WouldRun(p: Program, pc: nat) { pc == 0 && Supported(p) && NoBranchToEntry(p) }

  /** The interpreter stops on its own. */
  ghost predicate Halts(p: Program, vm: Machine.VM)
    requires Machine.WellFormed(vm)
  {
    exists final :: Machine.RunsTo(p, vm, final, Machine.Halted)
  }

  ghost predicate JitResult(p: Program, before: Machine.VM, after: Machine.VM)
    requires Machine.WellFormed(before)
  {
    exists final :: Machine.RunsTo(p, before, final, Machine.Halted)
                    && after == before.(regs := final.regs, pc := |p|)
  }
}
