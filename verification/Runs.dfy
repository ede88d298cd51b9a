/** What the memory, the allocator and the call stack promise over whole runs (aeon-vm/src/vm.rs). */
module Runs {
  import opened Words
  import opened Inst
  import opened CowHeap
  import opened Machine
  import Vfs

  lemma FirstStep(p: Program, vm: VM, n: nat)
    requires WellFormed(vm) && n > 0
    ensures WellFormed(Step(p, vm).0) && StepN(p, vm, n) == StepN(p, Step(p, vm).0, n - 1)
  {
    hide Step;
    StepKeeps(p, vm);
  }

  lemma LastStep(p: Program, vm: VM, n: nat)
    requires WellFormed(vm)
    ensures StepN(p, vm, n + 1) == Step(p, StepN(p, vm, n)).0
  {
    hide Step;
    StepNAdds(p, vm, n, 1);
    FirstStep(p, StepN(p, vm, n), 1);
  }

  // ----- one instruction -----

  /** A new machine: 256 zero registers, 1 MiB of zeros with no page dirty, nothing open, logged, called or counted. */
  lemma NewMeans(p: Program)
    ensures var vm := New(p);
            && vm.programId == IdOf(p) && vm.regs == seq(256, _ => 0) && vm.pc == 0 && vm.callStack == [] && vm.steps == 0
            && vm.heap == Heap(seq(1_048_576, _ => 0), {}) && vm.heapTop == 0 && vm.fs == Vfs.Fs(map[], []) && vm.eventLog == []
  {
    assert seq(REGISTERS, _ => 0) == seq(256, _ => 0);
    assert New(p).heap.bytes == seq(1_048_576, _ => 0);
  }

  /** One step was taken, to the next instruction, and the registers are these. */
  function Went(vm: VM, regs: seq<u64>): (VM, StepResult) {
    (vm.(regs := regs, pc := (vm.pc + 1) % TWO64, steps := vm.steps + 1), Continue)
  }

  /** Every instruction that is no system call, with its wrapping, its target and its errors. */
  lemma InstructionSet(p: Program, vm: VM)
    requires WellFormed(vm) && vm.pc < |p| && !p[vm.pc].Syscall? && |vm.regs| == REGISTERS
    ensures var regs, len := vm.regs, |vm.heap.bytes|;
            match p[vm.pc]
            case LoadImm(dst, val) => Step(p, vm) == Went(vm, regs[dst := val])
            case Mov(dst, src) => Step(p, vm) == Went(vm, regs[dst := regs[src]])
            case Add(dst, a, b) => Step(p, vm) == Went(vm, regs[dst := (regs[a] + regs[b]) % TWO64])
            case Sub(dst, a, b) => Step(p, vm) == Went(vm, regs[dst := (regs[a] - regs[b]) % TWO64])
            case Mul(dst, a, b) => Step(p, vm) == Went(vm, regs[dst := (regs[a] * regs[b]) % TWO64])
            case Jz(cond, off) =>
              Step(p, vm) == (vm.(pc := (if regs[cond] == 0 then vm.pc + off else vm.pc + 1) % TWO64, steps := vm.steps + 1), Continue)
            case Jump(off) => Step(p, vm) == (vm.(pc := (vm.pc + off) % TWO64, steps := vm.steps + 1), Continue)
            case Call(target) =>
              Step(p, vm) == (vm.(pc := target, callStack := vm.callStack + [(vm.pc + 1) % TWO64], steps := vm.steps + 1), Continue)
            case Ret =>
              var n := |vm.callStack|;
              if n == 0 then Step(p, vm) == (vm, Error(EmptyCallStack))
              else Step(p, vm) == (vm.(pc := vm.callStack[n - 1], callStack := vm.callStack[..n - 1], steps := vm.steps + 1), Continue)
            case Print(_) => Step(p, vm) == Went(vm, regs)
            case LoadMem(dst, addr) =>
              if regs[addr] >= len then Step(p, vm) == (vm, Error(MemoryOutOfBounds(regs[addr], len)))
              else Step(p, vm) == Went(vm, regs[dst := vm.heap.bytes[regs[addr]]])
            case StoreMem(addr, src) =>
              regs[addr] >= len ==> Step(p, vm) == (vm, Error(MemoryOutOfBounds(regs[addr], len)))
            case Alloc(dst, size) =>
              if vm.heapTop + regs[size] > len then Step(p, vm) == (vm, Error(OutOfMemory(regs[size], len - vm.heapTop)))
              else Step(p, vm) == Went(vm.(heapTop := vm.heapTop + regs[size]), regs[dst := vm.heapTop])
            case Halt => Step(p, vm) == (vm, Halted)
            case _ => false
  {
    hide Touched, Vfs.WellFormed;
  }

  /** Outside the program a machine halts where it is. */
  lemma OutsideHalts(p: Program, vm: VM)
    requires WellFormed(vm) && vm.pc >= |p|
    ensures Step(p, vm) == (vm, Halted)
  {
  }

  // ----- memory -----

  /** A byte stored is the byte loaded back, truncated to its low eight bits; no other byte moves. */
  lemma StoreThenLoad(p: Program, vm: VM, addr: u8, src: u8, dst: u8)
    requires WellFormed(vm) && |vm.regs| == REGISTERS && vm.pc + 1 < |p| && vm.regs[addr] < |vm.heap.bytes|
    requires p[vm.pc] == StoreMem(addr, src) && p[vm.pc + 1] == LoadMem(dst, addr)
    ensures var end := StepN(p, vm, 2);
            && end.regs == vm.regs[dst := vm.regs[src] % 256]
            && end.heap.bytes == vm.heap.bytes[vm.regs[addr] := vm.regs[src] % 256]
            && end.heap.dirty == vm.heap.dirty + {vm.regs[addr] / PAGE_SIZE}
            && end.pc == vm.pc + 2
  {
    hide Step, StepN, WellFormed;
    StoreStep(p, vm, addr, src);
    ZeroSteps(p, vm);
    LastStep(p, vm, 0);
    LastStep(p, vm, 1);
    var stored := StepN(p, vm, 1);
    assert stored.heap.bytes[vm.regs[addr]] == vm.regs[src] % 256;
    LoadStep(p, stored, dst, addr);
  }

  lemma StoreStep(p: Program, vm: VM, addr: u8, src: u8)
    requires WellFormed(vm) && vm.pc < |p| && p[vm.pc] == StoreMem(addr, src)
    requires |vm.regs| == REGISTERS && vm.regs[addr] < |vm.heap.bytes|
    ensures var next := Step(p, vm).0;
            && next.regs == vm.regs && next.pc == vm.pc + 1
            && next.heap == Heap(vm.heap.bytes[vm.regs[addr] := vm.regs[src] % 256], vm.heap.dirty + {vm.regs[addr] / PAGE_SIZE})
  {
    hide Touched, WellFormed;
    TouchedOnePage(vm.regs[addr], 1);
    assert Update(vm.heap, vm.regs[addr], [LowByte(vm.regs[src])]).bytes == vm.heap.bytes[vm.regs[addr] := LowByte(vm.regs[src])];
  }

  lemma LoadStep(p: Program, vm: VM, dst: u8, addr: u8)
    requires WellFormed(vm) && vm.pc < |p| && p[vm.pc] == LoadMem(dst, addr)
    requires |vm.regs| == REGISTERS && vm.regs[addr] < |vm.heap.bytes|
    ensures Step(p, vm).0 == vm.(regs := vm.regs[dst := vm.heap.bytes[vm.regs[addr]]], pc := vm.pc + 1, steps := vm.steps + 1)
  {
    hide WellFormed;
  }

  // ----- the bump allocator -----

  /** Step `k` of the run allocates `size` bytes at `start`. */
  ghost predicate Allocates(p: Program, vm: VM, k: nat, start: nat, size: nat)
    requires WellFormed(vm)
  {
    var at := StepN(p, vm, k);
    && at.pc < |p| && p[at.pc].Alloc? && Step(p, at).1.Continue?
    && size == at.regs[p[at.pc].size]
    && |Step(p, at).0.regs| == REGISTERS && start == Step(p, at).0.regs[p[at.pc].dst]
  }

  lemma SyscallKeepsTop(vm: VM, num: u8)
    requires WellFormed(vm) && DoSyscall(vm, num).Ok?
    ensures DoSyscall(vm, num).value.heapTop == vm.heapTop
  {
    hide IsUtf8, Touched, WellFormed;
  }

  lemma TopNeverFalls(p: Program, vm: VM)
    requires WellFormed(vm)
    ensures vm.heapTop <= Step(p, vm).0.heapTop
  {
    hide DoSyscall;
    if vm.pc < |p| && p[vm.pc].Syscall? && DoSyscall(vm, p[vm.pc].num).Ok? {
      SyscallKeepsTop(vm, p[vm.pc].num);
    }
  }

  lemma {:induction false} TopGrows(p: Program, vm: VM, m: nat, n: nat)
    requires WellFormed(vm) && m <= n
    ensures StepN(p, vm, m).heapTop <= StepN(p, vm, n).heapTop
    decreases n - m
  {
    hide Step, WellFormed;
    if m < n {
      LastStep(p, vm, m);
      TopNeverFalls(p, StepN(p, vm, m));
      TopGrows(p, vm, m + 1, n);
    }
  }

  lemma AllocationMeans(p: Program, vm: VM, k: nat, start: nat, size: nat)
    requires WellFormed(vm) && Allocates(p, vm, k, start, size)
    ensures start == StepN(p, vm, k).heapTop && StepN(p, vm, k + 1).heapTop == start + size
    ensures start + size <= |vm.heap.bytes|
  {
    hide StepN;
    LastStep(p, vm, k);
  }

  /** In every run, whatever happens in between, two allocations never overlap and both lie in the heap. */
  lemma AllocationsDisjoint(p: Program, vm: VM, i: nat, j: nat, start: nat, size: nat, start': nat, size': nat)
    requires WellFormed(vm) && i < j
    requires Allocates(p, vm, i, start, size) && Allocates(p, vm, j, start', size')
    ensures vm.heapTop <= start && start + size <= start' && start' + size' <= |vm.heap.bytes|
  {
    hide Allocates, Step, WellFormed, StepN;
    AllocationMeans(p, vm, i, start, size);
    AllocationMeans(p, vm, j, start', size');
    TopGrows(p, vm, 0, i);
    TopGrows(p, vm, i + 1, j);
    ZeroSteps(p, vm);
  }

  lemma ZeroSteps(p: Program, vm: VM)
    requires WellFormed(vm)
    ensures StepN(p, vm, 0) == vm
  {
  }

  // ----- calls -----

  /** A step pushes or pops at most one return address and changes none below. */
  lemma StackStep(p: Program, vm: VM)
    requires WellFormed(vm)
    ensures var next := Step(p, vm).0;
            || vm.callStack <= next.callStack
            || (vm.callStack != [] && next.callStack == vm.callStack[..|vm.callStack| - 1]
                && next.pc == vm.callStack[|vm.callStack| - 1])
  {
    hide DoSyscall;
    if vm.pc < |p| && p[vm.pc].Syscall? && DoSyscall(vm, p[vm.pc].num).Ok? {
      SyscallKeeps(vm, p[vm.pc].num);
    }
  }

  /** While the stack stays higher than `|base|`, what lies in its first places stays. */
  lemma {:induction false} StackBelowStays(p: Program, vm: VM, base: seq<usize>, n: nat)
    requires WellFormed(vm) && base <= vm.callStack
    requires forall k: nat :: k <= n ==> |StepN(p, vm, k).callStack| >= |base|
    ensures base <= StepN(p, vm, n).callStack
  {
    hide Step, WellFormed;
    if n > 0 {
      StackBelowStays(p, vm, base, n - 1);
      LastStep(p, vm, n - 1);
      StackStep(p, StepN(p, vm, n - 1));
      assert |StepN(p, vm, n).callStack| >= |base|;
    }
  }

  /** The callee is active for the `n` steps after the call and gone after one more. */
  ghost predicate ReturnsAfter(p: Program, vm: VM, n: nat)
    requires WellFormed(vm)
  {
    && (forall k: nat :: 1 <= k <= n ==> |StepN(p, vm, k).callStack| > |vm.callStack|)
    && |StepN(p, vm, n + 1).callStack| <= |vm.callStack|
  }

  /** A call comes back to the instruction behind it with the caller's stack, whatever calls and returns the callee makes. */
  lemma CallReturns(p: Program, vm: VM, target: usize, n: nat)
    requires WellFormed(vm) && vm.pc < |p| && p[vm.pc] == Call(target) && ReturnsAfter(p, vm, n)
    ensures StepN(p, vm, n + 1).pc == vm.pc + 1 && StepN(p, vm, n + 1).callStack == vm.callStack
  {
    hide Step, WellFormed;
    var called := Step(p, vm).0;
    CallPushes(p, vm, target);
    FirstStep(p, vm, n + 1);
    var base := vm.callStack + [vm.pc + 1];
    assert n > 0 by {
      if n == 0 { ZeroSteps(p, called); }
    }
    forall k: nat | k <= n - 1 ensures |StepN(p, called, k).callStack| >= |base| {
      FirstStep(p, vm, k + 1);
      assert |StepN(p, vm, k + 1).callStack| > |vm.callStack|;
    }
    StackBelowStays(p, called, base, n - 1);
    FirstStep(p, vm, n);
    var before := StepN(p, vm, n);
    assert base <= before.callStack;
    LastStep(p, vm, n);
    StackStep(p, before);
    var after := StepN(p, vm, n + 1);
    assert before.callStack == base && after.callStack == base[..|base| - 1] == vm.callStack;
  }

  lemma CallPushes(p: Program, vm: VM, target: usize)
    requires WellFormed(vm) && vm.pc < |p| && p[vm.pc] == Call(target)
    ensures Step(p, vm).0.callStack == vm.callStack + [vm.pc + 1]
  {
  }
}
