/** The compiled block graph computes what the interpreter computes. */
module JitProof {
  import opened Words
  import opened Inst
  import opened Ordered
  import opened BlockGraph
  import opened Jit
  import Machine

  /** No branch goes back to the first instruction. */
  ghost predicate NoBranchToEntry(p: Program) {
    forall pc :: 0 <= pc < |p| ==> !(p[pc].Jz? && pc + p[pc].off == 0) && !(p[pc].Jump? && pc + p[pc].offset == 0)
  }

  lemma EntryTargets(p: Program)
    ensures NoBranchToEntry(p) <==> forall pc :: 0 <= pc < |p| ==> BranchTarget(p, pc) != Some(0)
  {
    forall pc | 0 <= pc < |p|
      ensures BranchTarget(p, pc) == Some(0)
              <==> (p[pc].Jz? && pc + p[pc].off == 0) || (p[pc].Jump? && pc + p[pc].offset == 0)
    {
    }
  }

  // ----- straight-line pieces of the interpreter -----

  datatype Piece = Piece(steps: nat, pc: nat, regs: seq<u64>, halted: bool)

  /** Interpret from `pc` up to `end` or through the first control instruction. */
  ghost function Straight(p: Program, pc: nat, end: nat, regs: seq<u64>): (r: Piece)
    requires Supported(p) && pc <= end <= |p| && |regs| == 256
    ensures |r.regs| == 256 && r.pc <= |p|
    ensures pc < end ==> r.steps > 0 || r.halted
    decreases end - pc
  {
    if pc == end then Piece(0, end, regs, false)
    else
      SupportedAt(p, pc);
      var i := p[pc];
      if i.Jz? then
        Piece(1, if regs[i.cond] == 0 then CheckedTarget(pc, i.off, |p|).value else pc + 1, regs, false)
      else if i.Jump? then Piece(1, CheckedTarget(pc, i.offset, |p|).value, regs, false)
      else if i.Halt? then Piece(0, |p|, regs, true)
      else
        var rest := Straight(p, pc + 1, end, regs[i.dst := Machine.Value(i, regs)]);
        rest.(steps := rest.steps + 1)
  }

  /** One interpreter step of a supported program, seen on `pc` and the registers. */
  lemma StepSupported(p: Program, vm: Machine.VM)
    requires Machine.WellFormed(vm) && Supported(p) && vm.pc < |p|
    ensures p[vm.pc].Halt? <==> Machine.Step(p, vm).1 == Machine.Halted
    ensures !p[vm.pc].Halt? ==> Machine.Step(p, vm).1 == Machine.Continue
    ensures var one := Straight(p, vm.pc, vm.pc + 1, vm.regs);
            !p[vm.pc].Halt? ==> Machine.Step(p, vm).0.pc == one.pc && Machine.Step(p, vm).0.regs == one.regs
  {
    SupportedAt(p, vm.pc);
  }

  /** A piece is that many machine steps. */
  lemma {:induction false} StraightRuns(p: Program, vm: Machine.VM, end: nat)
    requires Machine.WellFormed(vm) && Supported(p) && vm.pc <= end <= |p|
    ensures var r := Straight(p, vm.pc, end, vm.regs);
            var final := Machine.StepN(p, vm, r.steps);
            && final.regs == r.regs
            && (if r.halted then Machine.Step(p, final).1 == Machine.Halted else final.pc == r.pc)
            && forall k: nat :: k < r.steps ==> Machine.Step(p, Machine.StepN(p, vm, k)).1 == Machine.Continue
    decreases end - vm.pc
  {
    hide Machine.Step, Machine.Execute, Machine.Value, Machine.WellFormed;
    if vm.pc < end {
      StepSupported(p, vm);
      Machine.StepKeeps(p, vm);
      var next := Machine.Step(p, vm).0;
      if !IsControl(p[vm.pc]) {
        SupportedAt(p, vm.pc);
        StraightRuns(p, next, end);
      }
      forall k: nat | k > 0 && !p[vm.pc].Halt?
        ensures Machine.StepN(p, vm, k) == Machine.StepN(p, next, k - 1)
      {
      }
    }
  }

  // ----- straight-line pieces of the graph -----

  /** Variables hold the touched registers, memory still holds the others. */
  ghost predicate Holds(t: seq<nat>, regs: seq<u64>, s: State) {
    && |regs| == 256 && |s.mem| == 256
    && (forall r :: r in t ==> r < 256 && VarOf(t, r) in s.vars && s.vars[VarOf(t, r)] == regs[r])
    && (forall r :: 0 <= r < 256 && r !in t ==> s.mem[r] == regs[r])
  }

  lemma TranslateHolds(i: Inst, t: seq<nat>, regs: seq<u64>, s: State)
    requires StrictlyAscending(t) && Holds(t, regs, s)
    requires Names(i) != {} && !i.Jz? && forall r :: r in Names(i) ==> r in t
    ensures i.dst in Names(i) && Holds(t, regs[i.dst := Machine.Value(i, regs)], Exec1(Translate(i, t), s))
  {
    hide StrictlyAscending, WrapAdd, WrapSub, WrapMul, VarOf;
    assert i.dst in Names(i);
    forall r | r in Names(i) ensures Eval(Use(t, r), s) == regs[r] {
    }
    if i.Mov? {
      assert i.src in Names(i);
    } else if !i.LoadImm? {
      assert i.a in Names(i) && i.b in Names(i);
    }
    var v := VarOf(t, i.dst);
    assert Exec1(Translate(i, t), s) == s.(vars := s.vars[v := Machine.Value(i, regs)]);
    forall r | r in t && r != i.dst ensures VarOf(t, r) != v {
      assert t[VarOf(t, r) - 1] == r && t[v - 1] == i.dst;
    }
  }

  /** Running the emitted code simulates the piece, and its terminator picks the same successor. */
  lemma {:induction false} CodeSimulates(p: Program, pc: nat, end: nat, regs: seq<u64>, s: State)
    requires Supported(p) && pc <= end <= |p| && Holds(Order(p), regs, s)
    ensures var (body, term) := Code(p, pc, end);
            var r := Straight(p, pc, end, regs);
            && Holds(Order(p), r.regs, Exec(body, s))
            && !term.Return? && Next(term, Exec(body, s)) == r.pc
    decreases end - pc
  {
    hide Holds, Translate, Compiles, CheckedTarget, Sorted, StrictlyAscending, Machine.Value, VarOf;
    if pc < end {
      TouchedCovers(p, pc);
      SupportedAt(p, pc);
      if IsControl(p[pc]) {
        HoldsAt(p, pc, regs, s);
      } else {
        var c := Translate(p[pc], Order(p));
        HoldsAt(p, pc, regs, s);
        assert p[pc].dst in Names(p[pc]);
        TranslateHolds(p[pc], Order(p), regs, s);
        CodeSimulates(p, pc + 1, end, regs[p[pc].dst := Machine.Value(p[pc], regs)], Exec1(c, s));
        assert ([c] + Code(p, pc + 1, end).0)[1..] == Code(p, pc + 1, end).0;
      }
    }
  }

  lemma HoldsAt(p: Program, pc: nat, regs: seq<u64>, s: State)
    requires Supported(p) && pc < |p| && Holds(Order(p), regs, s)
    ensures |regs| == 256
    ensures forall r :: r in Names(p[pc]) ==> r in Order(p) && r < 256 && Eval(UseVar(VarOf(Order(p), r)), s) == regs[r]
  {
    TouchedCovers(p, pc);
  }

  // ----- register loads and stores around the code -----

  /** The variables of the first `n` touched registers hold those registers. */
  ghost predicate Loaded(t: seq<nat>, n: nat, regs: seq<u64>, s: State)
    requires n <= |t|
  {
    forall k :: 0 <= k < n ==> LoadedAt(t, k, regs, s)
  }

  ghost predicate LoadedAt(t: seq<nat>, k: nat, regs: seq<u64>, s: State)
    requires k < |t|
  {
    k + 1 in s.vars && t[k] < |regs| && s.vars[k + 1] == regs[t[k]]
  }

  lemma {:induction false} PrologueLoads(t: seq<nat>, i: nat, regs: seq<u64>, s: State)
    requires (forall r :: r in t ==> r < 256) && i <= |t| && |regs| == 256 && s.mem == regs
    requires Loaded(t, i, regs, s)
    ensures var r := Exec(Prologue(t)[i..], s); r.mem == regs && Loaded(t, |t|, regs, r)
    decreases |t| - i
  {
    if i < |t| {
      assert t[i] in t;
      assert Prologue(t)[i..][1..] == Prologue(t)[i + 1..];
      var next := Exec1(Prologue(t)[i], s);
      assert next == s.(vars := s.vars[i + 1 := regs[t[i]]]);
      forall k: nat | k <= i ensures LoadedAt(t, k, regs, next) {
        assert k < i ==> LoadedAt(t, k, regs, s);
      }
      PrologueLoads(t, i + 1, regs, next);
    }
  }

  lemma PrologueHolds(p: Program, regs: seq<u64>)
    requires |regs| == 256
    ensures Holds(Order(p), regs, Exec(Prologue(Order(p)), State(map[], regs)))
  {
    hide Prologue, Exec, Order, VarOf, StrictlyAscending, Touched;
    EndsAreLeaders(p);
    var t := Order(p);
    assert Prologue(t)[0..] == Prologue(t);
    PrologueLoads(t, 0, regs, State(map[], regs));
    forall r | r in t
      ensures var s := Exec(Prologue(t), State(map[], regs)); VarOf(t, r) in s.vars && s.vars[VarOf(t, r)] == regs[r]
    {
      assert t[VarOf(t, r) - 1] == r;
      assert LoadedAt(t, VarOf(t, r) - 1, regs, Exec(Prologue(t), State(map[], regs)));
    }
  }

  lemma {:induction false} EpilogueStores(t: seq<nat>, i: nat, regs: seq<u64>, s: State)
    requires (forall r :: r in t ==> r < 256) && i <= |t| && |regs| == 256 && |s.mem| == 256
    requires Loaded(t, |t|, regs, s)
    requires forall r :: 0 <= r < 256 && r !in t[i..] ==> s.mem[r] == regs[r]
    ensures Exec(Epilogue(t)[i..], s).mem == regs
    decreases |t| - i
  {
    if i < |t| {
      assert LoadedAt(t, i, regs, s);
      assert Epilogue(t)[i..][1..] == Epilogue(t)[i + 1..];
      var next := Exec1(Epilogue(t)[i], s);
      assert t[i] in t;
      forall r | 0 <= r < 256 && r !in t[i + 1..] ensures next.mem[r] == regs[r] {
        assert t[i..] == [t[i]] + t[i + 1..];
      }
      forall k: nat | k < |t| ensures LoadedAt(t, k, regs, next) {
        assert LoadedAt(t, k, regs, s);
      }
      EpilogueStores(t, i + 1, regs, next);
    }
  }

  lemma VarOfIndex(t: seq<nat>, k: nat)
    requires StrictlyAscending(t) && k < |t|
    ensures VarOf(t, t[k]) == k + 1
  {
    var v := VarOf(t, t[k]);
    assert t[v - 1] == t[k];
  }

  lemma HeldAt(t: seq<nat>, regs: seq<u64>, s: State, k: nat)
    requires StrictlyAscending(t) && Holds(t, regs, s) && k < |t|
    ensures LoadedAt(t, k, regs, s)
  {
    hide VarOf;
    VarOfIndex(t, k);
    assert t[k] in t;
    assert VarOf(t, t[k]) in s.vars;
  }

  lemma HeldAll(t: seq<nat>, regs: seq<u64>, s: State)
    requires StrictlyAscending(t) && Holds(t, regs, s)
    ensures Loaded(t, |t|, regs, s)
  {
    hide Holds, StrictlyAscending;
    forall k: nat | k < |t| ensures LoadedAt(t, k, regs, s) {
      HeldAt(t, regs, s, k);
    }
  }

  lemma EpilogueRestores(p: Program, regs: seq<u64>, s: State)
    requires Holds(Order(p), regs, s)
    ensures Exec(Epilogue(Order(p)), s).mem == regs
  {
    hide Epilogue, Order, VarOf, StrictlyAscending, Exec, Touched;
    EndsAreLeaders(p);
    var t := Order(p);
    assert Holds(t, regs, s);
    HeldAll(t, regs, s);
    assert Epilogue(t)[0..] == Epilogue(t);
    assert t[0..] == t;
    EpilogueStores(t, 0, regs, s);
  }

  // ----- whole runs -----

  /** Run on from leader `l` with its register loads, if any, already done. */
  ghost function GraphFrom(p: Program, f: Func, l: nat, s: State, fuel: nat): Option<seq<u64>>
    requires Supported(p) && l <= |p|
  {
    if l == |p| then Some(Exec(Epilogue(Order(p)), s).mem)
    else
      var (body, term) := Code(p, l, NextLeader(p, l));
      var s' := Exec(body, s);
      if term.Return? then Some(s'.mem) else RunBlocks(f, Next(term, s'), s', fuel)
  }

  /** Entering a block costs one unit; only block 0 starts with the loads. */
  lemma EnterBlock(p: Program, f: Func, l: nat, s: State, fuel: nat)
    requires Supported(p) && IsGraphOf(p, f) && IsLeader(p, l) && l <= |p|
    ensures RunBlocks(f, l, s, fuel + 1)
            == GraphFrom(p, f, l, if l == 0 then Exec(Prologue(Order(p)), s) else s, fuel)
  {
    hide Code, Exec, Prologue, Epilogue, Supported, IsLeader, NextLeader, Order;
    assert l in f.blocks && f.blocks[l] == BlockAt(p, l);
    var code := if l == |p| then Epilogue(Order(p)) else Code(p, l, NextLeader(p, l)).0;
    if l == 0 {
      ExecAppend(Prologue(Order(p)), code, s);
    } else {
      assert [] + code == code;
    }
  }

  /** A piece ends at a block boundary other than the entry. */
  lemma {:induction false} PieceLands(p: Program, pc: nat, end: nat, regs: seq<u64>)
    requires Supported(p) && NoBranchToEntry(p) && pc < end <= |p| && IsLeader(p, end) && |regs| == 256
    ensures var r := Straight(p, pc, end, regs); r.pc != 0 && IsLeader(p, r.pc)
    decreases end - pc
  {
    SupportedAt(p, pc);
    var i := p[pc];
    if IsControl(i) {
      assert LeaderFrom(p, pc, pc + 1);
      if !i.Halt? {
        assert LeaderFrom(p, pc, BranchTarget(p, pc).value);
      }
    } else if pc + 1 < end {
      PieceLands(p, pc + 1, end, regs[i.dst := Machine.Value(i, regs)]);
    }
  }

  ghost predicate HaltsIn(p: Program, vm: Machine.VM, n: nat, regs: seq<u64>)
    requires Machine.WellFormed(vm)
  {
    Machine.Step(p, Machine.StepN(p, vm, n)).1 == Machine.Halted && Machine.StepN(p, vm, n).regs == regs
  }

  /** A halting interpreter run has a returning graph run with the same registers. */
  lemma {:induction false} InterpreterToGraph(p: Program, f: Func, vm: Machine.VM, s: State, n: nat, regs: seq<u64>)
    requires Supported(p) && NoBranchToEntry(p) && IsGraphOf(p, f)
    requires Machine.WellFormed(vm) && IsLeader(p, vm.pc) && vm.pc <= |p| && Holds(Order(p), vm.regs, s)
    requires HaltsIn(p, vm, n, regs)
    ensures exists m: nat :: GraphFrom(p, f, vm.pc, s, m) == Some(regs)
    decreases n
  {
    hide Machine.Step, Machine.Execute, Straight, Code, Exec, Holds, Supported, IsLeader, IsGraphOf, NoBranchToEntry, RunBlocks, Order;
    if vm.pc == |p| {
      EpilogueRestores(p, vm.regs, s);
      AtEnd(p, vm);
      Machine.StoppedStays(p, vm, n);
      assert GraphFrom(p, f, vm.pc, s, 0) == Some(regs);
    } else {
      var end := NextLeader(p, vm.pc);
      var r := Straight(p, vm.pc, end, vm.regs);
      var final := Machine.StepN(p, vm, r.steps);
      var s' := Exec(Code(p, vm.pc, end).0, s);
      StraightRuns(p, vm, end);
      PieceLands(p, vm.pc, end, vm.regs);
      CodeSimulates(p, vm.pc, end, vm.regs, s);
      assert r.steps <= n;
      Machine.StepNAdds(p, vm, r.steps, n - r.steps);
      if r.halted {
        Machine.StoppedStays(p, final, n - r.steps);
        HaltLands(p, vm.pc, end, vm.regs);
        EpilogueRestores(p, r.regs, s');
        EnterBlock(p, f, |p|, s', 0);
        assert GraphFrom(p, f, vm.pc, s, 1) == Some(regs);
      } else {
        InterpreterToGraph(p, f, final, s', n - r.steps, regs);
        var m: nat :| GraphFrom(p, f, final.pc, s', m) == Some(regs);
        EnterBlock(p, f, r.pc, s', m);
        assert GraphFrom(p, f, vm.pc, s, m + 1) == Some(regs);
      }
    }
  }

  /** A returning graph run has a halting interpreter run with the same registers. */
  lemma {:induction false} GraphToInterpreter(p: Program, f: Func, vm: Machine.VM, s: State, m: nat, regs: seq<u64>)
    requires Supported(p) && NoBranchToEntry(p) && IsGraphOf(p, f)
    requires Machine.WellFormed(vm) && IsLeader(p, vm.pc) && vm.pc <= |p| && Holds(Order(p), vm.regs, s)
    requires GraphFrom(p, f, vm.pc, s, m) == Some(regs)
    ensures exists n: nat :: HaltsIn(p, vm, n, regs)
    decreases m
  {
    hide Machine.Step, Machine.Execute, Straight, Code, Exec, Holds, Supported, IsLeader, IsGraphOf, NoBranchToEntry, Order;
    if vm.pc == |p| {
      EpilogueRestores(p, vm.regs, s);
      AtEnd(p, vm);
      assert HaltsIn(p, vm, 0, regs);
    } else {
      var end := NextLeader(p, vm.pc);
      var r := Straight(p, vm.pc, end, vm.regs);
      var final := Machine.StepN(p, vm, r.steps);
      var s' := Exec(Code(p, vm.pc, end).0, s);
      StraightRuns(p, vm, end);
      PieceLands(p, vm.pc, end, vm.regs);
      CodeSimulates(p, vm.pc, end, vm.regs, s);
      assert m > 0;
      EnterBlock(p, f, r.pc, s', m - 1);
      if r.halted {
        HaltLands(p, vm.pc, end, vm.regs);
        EpilogueRestores(p, r.regs, s');
        assert HaltsIn(p, vm, r.steps, regs);
      } else {
        GraphToInterpreter(p, f, final, s', m - 1, regs);
        var n: nat :| HaltsIn(p, final, n, regs);
        Machine.StepNAdds(p, vm, r.steps, n);
        assert HaltsIn(p, vm, r.steps + n, regs);
      }
    }
  }

  lemma AtEnd(p: Program, vm: Machine.VM)
    requires Machine.WellFormed(vm) && vm.pc == |p|
    ensures Machine.Step(p, vm) == (vm, Machine.Halted)
  {
  }

  lemma {:induction false} HaltLands(p: Program, pc: nat, end: nat, regs: seq<u64>)
    requires Supported(p) && pc <= end <= |p| && |regs| == 256
    ensures var r := Straight(p, pc, end, regs); r.halted ==> r.pc == |p|
    decreases end - pc
  {
    if pc < end && !IsControl(p[pc]) {
      SupportedAt(p, pc);
      HaltLands(p, pc + 1, end, regs[p[pc].dst := Machine.Value(p[pc], regs)]);
    }
  }

  lemma ReturnHasHalt(p: Program, f: Func, vm: Machine.VM, fuel: nat, regs: seq<u64>)
    requires Supported(p) && NoBranchToEntry(p) && IsGraphOf(p, f)
    requires Machine.WellFormed(vm) && vm.pc == 0 && CallFunc(f, vm.regs, fuel) == Some(regs)
    ensures exists n: nat :: HaltsIn(p, vm, n, regs)
  {
    hide Machine.Step, Machine.StepN, Machine.WellFormed, Holds, Supported, NoBranchToEntry, IsLeader, GraphFrom, Prologue, Exec, Order;
    hide RunBlocks, IsGraphOf, CallFunc, HaltsIn;
    var start := State(map[], vm.regs);
    EntryState(p, f, vm);
    PositiveFuel(f, 0, start, fuel);
    EnterBlock(p, f, 0, start, fuel - 1);
    GraphToInterpreter(p, f, vm, Exec(Prologue(Order(p)), start), fuel - 1, regs);
  }

  lemma HaltHasReturn(p: Program, f: Func, vm: Machine.VM, n: nat, regs: seq<u64>)
    requires Supported(p) && NoBranchToEntry(p) && IsGraphOf(p, f)
    requires Machine.WellFormed(vm) && vm.pc == 0 && HaltsIn(p, vm, n, regs)
    ensures exists fuel: nat :: CallFunc(f, vm.regs, fuel) == Some(regs)
  {
    hide Machine.Step, Machine.StepN, Machine.WellFormed, Holds, Supported, NoBranchToEntry, IsLeader, GraphFrom, Prologue, Exec, Order;
    hide RunBlocks, IsGraphOf, CallFunc, HaltsIn;
    var start := State(map[], vm.regs);
    EntryState(p, f, vm);
    InterpreterToGraph(p, f, vm, Exec(Prologue(Order(p)), start), n, regs);
    var m: nat :| GraphFrom(p, f, 0, Exec(Prologue(Order(p)), start), m) == Some(regs);
    EnterBlock(p, f, 0, start, m);
    assert CallFunc(f, vm.regs, m + 1) == Some(regs);
  }

  /** The compiled function returns exactly when the interpreter started at pc 0 halts, and with the same 256 registers. */
  lemma CompiledMatchesInterpreter(p: Program, f: Func, vm: Machine.VM, regs: seq<u64>)
    requires Supported(p) && NoBranchToEntry(p) && IsGraphOf(p, f)
    requires Machine.WellFormed(vm) && vm.pc == 0
    ensures (exists fuel: nat :: CallFunc(f, vm.regs, fuel) == Some(regs))
            <==> (exists final :: Machine.RunsTo(p, vm, final, Machine.Halted) && final.regs == regs)
  {
    hide Machine.Step, Machine.StepN, Machine.WellFormed, Supported, NoBranchToEntry, IsGraphOf, CallFunc;
    if fuel: nat :| CallFunc(f, vm.regs, fuel) == Some(regs) {
      ReturnHasHalt(p, f, vm, fuel, regs);
      var n: nat :| HaltsIn(p, vm, n, regs);
      assert Machine.StopsAfter(p, vm, n, Machine.StepN(p, vm, n), Machine.Halted);
    }
    if final :| Machine.RunsTo(p, vm, final, Machine.Halted) && final.regs == regs {
      var n: nat :| Machine.StopsAfter(p, vm, n, final, Machine.Halted);
      assert HaltsIn(p, vm, n, regs);
      HaltHasReturn(p, f, vm, n, regs);
    }
  }

  lemma EntryState(p: Program, f: Func, vm: Machine.VM)
    requires Machine.WellFormed(vm) && Supported(p) && IsGraphOf(p, f)
    ensures forall fuel :: CallFunc(f, vm.regs, fuel) == RunBlocks(f, 0, State(map[], vm.regs), fuel)
    ensures IsLeader(p, 0) && Holds(Order(p), vm.regs, Exec(Prologue(Order(p)), State(map[], vm.regs)))
  {
    EndsAreLeaders(p);
    PrologueHolds(p, vm.regs);
  }

  lemma PositiveFuel(f: Func, b: nat, s: State, fuel: nat)
    requires RunBlocks(f, b, s, fuel).Some?
    ensures fuel > 0
  {
  }
}
