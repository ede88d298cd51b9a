/** The register machine: what one step does, and what runs of steps keep (aeon-vm/src/vm.rs). */
module Machine {
  import opened Words
  import opened Inst
  import opened CowHeap
  import EventLog
  import Vfs

  const DEFAULT_HEAP_SIZE := 1024 * 1024
  const REGISTERS := 256

  datatype VMError =
    | EmptyCallStack
    | MemoryOutOfBounds(addr: nat, heapLen: nat)
    | OutOfMemory(requested: nat, available: nat)
    | UnknownSyscall(num: u8)
    | InvalidUtf8
    | FsFailed(error: Vfs.FsError)

  datatype StepResult = Continue | Halted | Error(error: VMError)

  datatype VM = VM(
    programId: ProgramId,
    regs: seq<u64>,
    pc: usize,
    callStack: seq<usize>,
    steps: nat,
    heap: Heap,
    heapTop: usize,
    fs: Vfs.Fs,
    eventLog: EventLog.Log)

  function New(p: Program): VM {
    VM(IdOf(p), seq(REGISTERS, _ => 0), 0, [], 0,
       Heap(seq(DEFAULT_HEAP_SIZE, _ => 0), {}), 0, Vfs.Fs(map[], []), [])
  }

  /** What every reachable machine satisfies; it is what keeps a step from panicking and a restore from failing. */
  ghost predicate WellFormed(vm: VM) {
    && |vm.regs| == REGISTERS
    && |vm.heap.bytes| < TWO63
    && vm.heapTop <= |vm.heap.bytes|
    && (forall p :: p in vm.heap.dirty ==> p < PageCount(|vm.heap.bytes|))
    && Vfs.WellFormed(vm.fs)
  }

  function CheckedRange(h: Heap, addr: usize, len: usize): (r: Result<seq<u8>, VMError>)
    ensures r.Ok? <==> addr + len < TWO64 && addr + len <= |h.bytes|
    ensures r.Ok? ==> |r.value| == len
  {
    if addr + len >= TWO64 then Err(MemoryOutOfBounds(addr, |h.bytes|))
    else if addr + len > |h.bytes| then Err(MemoryOutOfBounds(addr + len, |h.bytes|))
    else Ok(h.bytes[addr..addr + len])
  }

  function DoSyscall(vm: VM, num: u8): (r: Result<VM, VMError>)
    requires WellFormed(vm)
    ensures r.Ok? ==> r.value.pc == vm.pc
  {
    match num
    case 0 =>
      var path := CheckedRange(vm.heap, vm.regs[1], vm.regs[2]);
      if path.Err? then Err(path.error)
      else if !IsUtf8(path.value) then Err(InvalidUtf8)
      else
        var (fs, fd) := Vfs.Open(vm.fs, path.value, vm.regs[3] != 0);
        if fd.Err? then Err(FsFailed(fd.error))
        else Ok(vm.(fs := fs, regs := vm.regs[0 := Count(fd.value)]))
    case 1 =>
      var buffer := CheckedRange(vm.heap, vm.regs[2], vm.regs[3]);
      if buffer.Err? then Err(buffer.error)
      else
        var (fs, data) := Vfs.Read(vm.fs, vm.regs[1], vm.regs[3]);
        if data.Err? then Err(FsFailed(data.error))
        else Ok(vm.(fs := fs, heap := Update(vm.heap, vm.regs[2], data.value),
                    regs := vm.regs[0 := Count(|data.value|)]))
    case 2 =>
      var data := CheckedRange(vm.heap, vm.regs[2], vm.regs[3]);
      if data.Err? then Err(data.error)
      else
        var (fs, written) := Vfs.Write(vm.fs, vm.regs[1], data.value);
        if written.Err? then Err(FsFailed(written.error))
        else Ok(vm.(fs := fs, regs := vm.regs[0 := Count(written.value)]))
    case 3 =>
      var (fs, closed) := Vfs.Close(vm.fs, vm.regs[1]);
      if closed.Err? then Err(FsFailed(closed.error))
      else Ok(vm.(fs := fs, regs := vm.regs[0 := 0]))
    case _ => Err(UnknownSyscall(num))
  }

  /** `n as u64`; the identity for every count a real vector can have. */
  function Count(n: nat): u64 { n % TWO64 }

  function SetReg(vm: VM, r: u8, v: u64): VM
    requires |vm.regs| == REGISTERS
  {
    vm.(regs := vm.regs[r := v])
  }

  /** What a register-to-register instruction puts into its destination. */
  function Value(i: Inst, regs: seq<u64>): u64
    requires |regs| == REGISTERS && Computes(i)
  {
    match i
    case LoadImm(_, val) => val
    case Mov(_, src) => regs[src]
    case Add(_, a, b) => WrapAdd(regs[a], regs[b])
    case Sub(_, a, b) => WrapSub(regs[a], regs[b])
    case Mul(_, a, b) => WrapMul(regs[a], regs[b])
  }

  predicate Computes(i: Inst) { i.LoadImm? || i.Mov? || i.Add? || i.Sub? || i.Mul? }

  predicate Transfers(i: Inst) { i.Jz? || i.Jump? || i.Call? || i.Ret? }

  function Transfer(i: Inst, vm: VM): Result<VM, VMError>
    requires WellFormed(vm) && vm.pc + 1 < TWO64 && Transfers(i)
  {
    match i
    case Jz(cond, off) => Ok(vm.(pc := if vm.regs[cond] == 0 then Offset(vm.pc, off) else vm.pc + 1))
    case Jump(offset) => Ok(vm.(pc := Offset(vm.pc, offset)))
    case Call(target) => Ok(vm.(pc := target, callStack := vm.callStack + [vm.pc + 1]))
    case Ret =>
      var top := |vm.callStack| - 1;
      if vm.callStack == [] then Err(EmptyCallStack)
      else Ok(vm.(pc := vm.callStack[top], callStack := vm.callStack[..top]))
  }

  predicate Accesses(i: Inst) { i.LoadMem? || i.StoreMem? || i.Alloc? }

  function Access(i: Inst, vm: VM): Result<VM, VMError>
    requires WellFormed(vm) && Accesses(i)
  {
    match i
    case LoadMem(dst, addr) =>
      var at := vm.regs[addr];
      if at >= |vm.heap.bytes| then Err(MemoryOutOfBounds(at, |vm.heap.bytes|))
      else Ok(SetReg(vm, dst, vm.heap.bytes[at]))
    case StoreMem(addr, src) =>
      var at := vm.regs[addr];
      if at >= |vm.heap.bytes| then Err(MemoryOutOfBounds(at, |vm.heap.bytes|))
      else Ok(vm.(heap := Update(vm.heap, at, [LowByte(vm.regs[src])])))
    case Alloc(dst, size) =>
      var requested := vm.regs[size];
      if vm.heapTop + requested > |vm.heap.bytes| then Err(OutOfMemory(requested, |vm.heap.bytes| - vm.heapTop))
      else Ok(SetReg(vm, dst, vm.heapTop).(heapTop := vm.heapTop + requested))
  }

  function Advance(r: Result<VM, VMError>): Result<VM, VMError>
    requires r.Ok? ==> r.value.pc + 1 < TWO64
  {
    match r
    case Ok(vm) => Ok(vm.(pc := vm.pc + 1))
    case Err(_) => r
  }

  function Execute(i: Inst, vm: VM): Result<VM, VMError>
    requires WellFormed(vm) && vm.pc + 1 < TWO64 && !i.Halt?
  {
    if Computes(i) then Advance(Ok(SetReg(vm, i.dst, Value(i, vm.regs))))
    else if Transfers(i) then Transfer(i, vm)
    else if Accesses(i) then Advance(Access(i, vm))
    else if i.Print? then Advance(Ok(vm))
    else Advance(DoSyscall(vm, i.num))
  }

  function Step(p: Program, vm: VM): (VM, StepResult)
    requires WellFormed(vm)
  {
    if vm.pc >= |p| || p[vm.pc].Halt? then (vm, Halted)
    else
      match Execute(p[vm.pc], vm)
      case Ok(next) => (next.(steps := vm.steps + 1), Continue)
      case Err(e) => (vm, Error(e))
  }

  // ----- what a step keeps -----

  lemma UpdateKeepsPages(h: Heap, addr: nat, data: seq<u8>)
    requires addr + |data| <= |h.bytes|
    requires forall p :: p in h.dirty ==> p < PageCount(|h.bytes|)
    ensures forall p :: p in Update(h, addr, data).dirty ==> p < PageCount(|h.bytes|)
  {
  }

  lemma SyscallKeeps(vm: VM, num: u8)
    requires WellFormed(vm) && DoSyscall(vm, num).Ok?
    ensures var r := DoSyscall(vm, num).value;
            WellFormed(r) && r.pc == vm.pc && r.callStack == vm.callStack && r.programId == vm.programId
            && r.steps == vm.steps && r.eventLog == vm.eventLog && |r.heap.bytes| == |vm.heap.bytes|
    ensures forall base :: CleanPagesEqual(vm.heap, base) ==> CleanPagesEqual(DoSyscall(vm, num).value.heap, base)
  {
    match num
    case 0 =>
      var path := CheckedRange(vm.heap, vm.regs[1], vm.regs[2]).value;
      Vfs.OpKeepsDescriptors(vm.fs, Vfs.OpOpen(path, vm.regs[3] != 0));
    case 1 =>
      Vfs.OpKeepsDescriptors(vm.fs, Vfs.OpRead(vm.regs[1], vm.regs[3]));
      var data := Vfs.Read(vm.fs, vm.regs[1], vm.regs[3]).1.value;
      forall base | CleanPagesEqual(vm.heap, base)
        ensures CleanPagesEqual(DoSyscall(vm, num).value.heap, base)
      {
        UpdateKeepsCover(vm.heap, base, vm.regs[2], data);
      }
    case 2 =>
      var data := CheckedRange(vm.heap, vm.regs[2], vm.regs[3]).value;
      Vfs.OpKeepsDescriptors(vm.fs, Vfs.OpWrite(vm.regs[1], data));
    case 3 =>
      Vfs.OpKeepsDescriptors(vm.fs, Vfs.OpClose(vm.regs[1]));
    case _ =>
  }

  /** A step keeps the invariant, and when it does not continue it leaves the machine exactly as it was. */
  lemma StepKeeps(p: Program, vm: VM)
    requires WellFormed(vm)
    ensures var (next, r) := Step(p, vm);
            && WellFormed(next) && (!r.Continue? ==> next == vm)
            && (r.Continue? ==> next.steps == vm.steps + 1)
            && |next.heap.bytes| == |vm.heap.bytes| && next.programId == vm.programId && next.eventLog == vm.eventLog
  {
    if vm.pc < |p| && p[vm.pc].Syscall? && DoSyscall(vm, p[vm.pc].num).Ok? {
      SyscallKeeps(vm, p[vm.pc].num);
    }
  }

  /** Dirty tracking stays sound under every instruction. */
  lemma StepKeepsCover(p: Program, vm: VM, base: seq<u8>)
    requires WellFormed(vm) && CleanPagesEqual(vm.heap, base)
    ensures CleanPagesEqual(Step(p, vm).0.heap, base)
  {
    if vm.pc < |p| {
      match p[vm.pc]
      case Syscall(num) =>
        if DoSyscall(vm, num).Ok? {
          SyscallKeeps(vm, num);
        }
      case StoreMem(addr, src) =>
        if vm.regs[addr] < |vm.heap.bytes| {
          UpdateKeepsCover(vm.heap, base, vm.regs[addr], [LowByte(vm.regs[src])]);
        }
      case _ =>
    }
  }

  // ----- runs -----

  /** The machine after at most `n` steps; it stands still once a step no longer continues. */
  ghost function StepN(p: Program, vm: VM, n: nat): (r: VM)
    requires WellFormed(vm)
    ensures WellFormed(r) && |r.heap.bytes| == |vm.heap.bytes| && r.programId == vm.programId && r.eventLog == vm.eventLog
    decreases n
  {
    if n == 0 then vm else
      StepKeeps(p, vm);
      StepN(p, Step(p, vm).0, n - 1)
  }

  /** `run` from `vm` stops in `final`, its last step answering `r`. */
  ghost predicate StopsAfter(p: Program, vm: VM, n: nat, final: VM, r: StepResult)
    requires WellFormed(vm)
  {
    !r.Continue? && final == StepN(p, vm, n) && Step(p, final).1 == r
  }

  ghost predicate RunsTo(p: Program, vm: VM, final: VM, r: StepResult)
    requires WellFormed(vm)
  {
    exists n: nat :: StopsAfter(p, vm, n, final, r)
  }

  lemma {:induction false} StepNAdds(p: Program, vm: VM, m: nat, n: nat)
    requires WellFormed(vm)
    ensures StepN(p, vm, m + n) == StepN(p, StepN(p, vm, m), n)
    decreases m
  {
    hide Step, Execute;
    if m > 0 {
      StepKeeps(p, vm);
      StepNAdds(p, Step(p, vm).0, m - 1, n);
    }
  }

  lemma {:induction false} StoppedStays(p: Program, vm: VM, n: nat)
    requires WellFormed(vm) && !Step(p, vm).1.Continue?
    ensures StepN(p, vm, n) == vm
  {
    hide Step, Execute;
    StepKeeps(p, vm);
    if n > 0 {
      StoppedStays(p, vm, n - 1);
    }
  }

  /** A run stops in one state with one answer. */
  lemma RunsToUnique(p: Program, vm: VM, f1: VM, r1: StepResult, f2: VM, r2: StepResult)
    requires WellFormed(vm) && RunsTo(p, vm, f1, r1) && RunsTo(p, vm, f2, r2)
    ensures f1 == f2 && r1 == r2
  {
    hide Step, Execute;
    var m: nat :| StopsAfter(p, vm, m, f1, r1);
    var n: nat :| StopsAfter(p, vm, n, f2, r2);
    if m <= n {
      StepNAdds(p, vm, m, n - m);
      StoppedStays(p, f1, n - m);
    } else {
      StepNAdds(p, vm, n, m - n);
      StoppedStays(p, f2, m - n);
    }
  }

  lemma {:induction false} StepNKeepsCover(p: Program, vm: VM, n: nat, base: seq<u8>)
    requires WellFormed(vm) && CleanPagesEqual(vm.heap, base)
    ensures CleanPagesEqual(StepN(p, vm, n).heap, base)
    decreases n
  {
    hide Step, Execute;
    if n > 0 {
      StepKeeps(p, vm);
      StepKeepsCover(p, vm, base);
      StepNKeepsCover(p, Step(p, vm).0, n - 1, base);
    }
  }

  /** `run_bounded`: stops early at the first step that does not continue, and says whether that was a halt. */
  ghost function RunBounded(p: Program, vm: VM, n: nat): (r: (VM, bool))
    requires WellFormed(vm)
    ensures WellFormed(r.0)
    decreases n
  {
    if n == 0 then (vm, false) else
      StepKeeps(p, vm);
      var (next, s) := Step(p, vm);
      if s.Continue? then RunBounded(p, next, n - 1) else (vm, s.Halted?)
  }

  lemma {:induction false} RunBoundedIsStepN(p: Program, vm: VM, n: nat)
    requires WellFormed(vm)
    ensures RunBounded(p, vm, n).0 == StepN(p, vm, n)
    ensures RunBounded(p, vm, n).1 <==> exists k: nat :: k < n && HaltsAt(p, vm, k)
    decreases n
  {
    hide Step, Execute;
    if n > 0 {
      StepKeeps(p, vm);
      var (next, s) := Step(p, vm);
      if s.Continue? {
        RunBoundedIsStepN(p, next, n - 1);
        forall k: nat | HaltsAt(p, next, k) ensures HaltsAt(p, vm, k + 1) {
          StepNAdds(p, vm, 1, k);
        }
        forall k: nat | HaltsAt(p, vm, k) ensures k > 0 && HaltsAt(p, next, k - 1) {
          if k > 0 { StepNAdds(p, vm, 1, k - 1); }
        }
      } else {
        forall k: nat ensures StepN(p, vm, k) == vm { StoppedStays(p, vm, k); }
        assert HaltsAt(p, vm, 0) <==> s.Halted?;
      }
    }
  }

  ghost predicate HaltsAt(p: Program, vm: VM, k: nat)
    requires WellFormed(vm)
  {
    Step(p, StepN(p, vm, k)).1.Halted?
  }

  lemma NewWellFormed(p: Program)
    ensures WellFormed(New(p))
  {
  }
}

/** The machine object: every method acts on its fields the way the specification above says. */
module Vm {
  import opened Words
  import opened Inst
  import opened CowHeap
  import opened Machine
  import EventLog
  import Vfs

  class VMState {
    var programId: ProgramId
    var regs: seq<u64>
    var pc: usize
    var callStack: seq<usize>
    var steps: nat
    var heap: COWHeap
    var heapTop: usize
    var vfs: Vfs.VirtualFS
    var eventLog: EventLog.Log

    ghost predicate Valid()
      reads this, heap, vfs
    {
      heap.Valid() && WellFormed(State())
    }

    ghost function State(): VM
      reads this, heap, vfs
      requires heap.Valid()
    {
      VM(programId, regs, pc, callStack, steps, heap.View(), heapTop, vfs.View(), eventLog)
    }

    constructor (p: Program)
      ensures Valid() && fresh(heap) && fresh(vfs) && State() == New(p)
      ensures programId == IdOf(p)
    {
      programId := IdOf(p);
      regs := seq(REGISTERS, _ => 0);
      pc, callStack, steps, heapTop, eventLog := 0, [], 0, 0, [];
      heap := new COWHeap(DEFAULT_HEAP_SIZE);
      vfs := new Vfs.VirtualFS();
    }

    method CheckedHeapRange(addr: usize, len: usize) returns (r: Result<seq<u8>, VMError>)
      requires Valid()
      ensures r == CheckedRange(State().heap, addr, len)
    {
      var end := addr + len;
      if end >= TWO64 {
        return Err(MemoryOutOfBounds(addr, heap.len));
      }
      if end > heap.len {
        return Err(MemoryOutOfBounds(end, heap.len));
      }
      var bytes := heap.Read(addr, len);
      r := Ok(bytes.value);
    }

    method OpenCall() returns (r: Result<(), VMError>)
      requires Valid()
      modifies this`regs, vfs
      ensures Outcome(old(State()), DoSyscall(old(State()), 0), State(), r)
    {
      var path := CheckedHeapRange(regs[1], regs[2]);
      if path.Err? {
        return Err(path.error);
      }
      if !IsUtf8(path.value) {
        return Err(InvalidUtf8);
      }
      var fd := vfs.OpenPath(path.value, regs[3] != 0);
      if fd.Err? {
        return Err(FsFailed(fd.error));
      }
      regs := regs[0 := Count(fd.value)];
      r := Ok(());
    }

    method ReadCall() returns (r: Result<(), VMError>)
      requires Valid()
      modifies this`regs, vfs, heap
      ensures heap.Valid() && Outcome(old(State()), DoSyscall(old(State()), 1), State(), r)
    {
      var fd, at, count := regs[1], regs[2], regs[3];
      var buffer := CheckedHeapRange(at, count);
      if buffer.Err? {
        return Err(buffer.error);
      }
      var data := vfs.ReadFd(fd, count);
      if data.Err? {
        return Err(FsFailed(data.error));
      }
      var written := heap.Write(at, data.value);
      regs := regs[0 := Count(|data.value|)];
      r := Ok(());
    }

    method WriteCall() returns (r: Result<(), VMError>)
      requires Valid()
      modifies this`regs, vfs
      ensures Outcome(old(State()), DoSyscall(old(State()), 2), State(), r)
    {
      var fd, at, count := regs[1], regs[2], regs[3];
      var data := CheckedHeapRange(at, count);
      if data.Err? {
        return Err(data.error);
      }
      var written := vfs.WriteFd(fd, data.value);
      if written.Err? {
        return Err(FsFailed(written.error));
      }
      regs := regs[0 := Count(written.value)];
      r := Ok(());
    }

    method CloseCall() returns (r: Result<(), VMError>)
      requires Valid()
      modifies this`regs, vfs
      ensures Outcome(old(State()), DoSyscall(old(State()), 3), State(), r)
    {
      var closed := vfs.CloseFd(regs[1]);
      if closed.Err? {
        return Err(FsFailed(closed.error));
      }
      regs := regs[0 := 0];
      r := Ok(());
    }

    method HandleSyscall(num: u8) returns (r: Result<(), VMError>)
      requires Valid()
      modifies this`regs, vfs, heap
      ensures heap.Valid() && Outcome(old(State()), DoSyscall(old(State()), num), State(), r)
    {
      match num {
        case 0 => r := OpenCall();
        case 1 => r := ReadCall();
        case 2 => r := WriteCall();
        case 3 => r := CloseCall();
        case _ => r := Err(UnknownSyscall(num));
      }
    }

    lemma Bounds()
      requires Valid()
      ensures |regs| == REGISTERS && heapTop <= heap.len < TWO63 && heap.Valid() && WellFormed(State())
    {
    }

    method ComputeInst(i: Inst)
      requires Valid() && Computes(i)
      modifies this`regs
      ensures State() == SetReg(old(State()), i.dst, Value(i, old(State()).regs))
    {
      match i {
        case LoadImm(dst, val) => regs := regs[dst := val];
        case Mov(dst, src) => regs := regs[dst := regs[src]];
        case Add(dst, a, b) => regs := regs[dst := WrapAdd(regs[a], regs[b])];
        case Sub(dst, a, b) => regs := regs[dst := WrapSub(regs[a], regs[b])];
        case Mul(dst, a, b) => regs := regs[dst := WrapMul(regs[a], regs[b])];
      }
    }

    method TransferInst(i: Inst) returns (r: Result<(), VMError>)
      requires Valid() && pc + 1 < TWO64 && Transfers(i)
      modifies this`pc, this`callStack
      ensures Outcome(old(State()), Transfer(i, old(State())), State(), r)
    {
      match i {
        case Jz(cond, off) =>
          if regs[cond] == 0 {
            pc := Offset(pc, off);
          } else {
            pc := pc + 1;
          }
        case Jump(offset) =>
          pc := Offset(pc, offset);
        case Call(target) =>
          callStack := callStack + [pc + 1];
          pc := target;
        case Ret =>
          if callStack == [] {
            return Err(EmptyCallStack);
          }
          pc := callStack[|callStack| - 1];
          callStack := callStack[..|callStack| - 1];
      }
      r := Ok(());
    }

    method AccessInst(i: Inst) returns (r: Result<(), VMError>)
      requires Valid() && Accesses(i)
      modifies this`regs, this`heapTop, heap
      ensures heap.Valid() && Outcome(old(State()), Access(i, old(State())), State(), r)
    {
      hide Flat, Update, PageCount, Vfs.WellFormed, LowByte;
      match i {
        case LoadMem(dst, addr) =>
          var at := regs[addr];
          if at >= heap.len {
            return Err(MemoryOutOfBounds(at, heap.len));
          }
          var byte := heap.Get(at);
          regs := regs[dst := byte.value];
        case StoreMem(addr, src) =>
          var at := regs[addr];
          if at >= heap.len {
            return Err(MemoryOutOfBounds(at, heap.len));
          }
          var stored := heap.Set(at, LowByte(regs[src]));
        case Alloc(dst, size) =>
          var requested := regs[size];
          var available := heap.len - heapTop;
          if heapTop + requested >= TWO64 {
            return Err(OutOfMemory(requested, available));
          }
          var nextTop := heapTop + requested;
          if nextTop > heap.len {
            return Err(OutOfMemory(requested, available));
          }
          regs := regs[dst := heapTop];
          heapTop := nextTop;
      }
      r := Ok(());
    }

    method ExecuteInst(i: Inst) returns (r: Result<(), VMError>)
      requires Valid() && pc + 1 < TWO64 && !i.Halt?
      modifies this`pc, this`regs, this`callStack, this`heapTop, heap, vfs
      ensures heap.Valid() && Outcome(old(State()), Execute(i, old(State())), State(), r)
    {
      hide Flat, WellFormed, Value, Transfer, Access, DoSyscall;
      Bounds();
      r := Ok(());
      if Computes(i) {
        ComputeInst(i);
      } else if Transfers(i) {
        r := TransferInst(i);
        return;
      } else if Accesses(i) {
        r := AccessInst(i);
      } else if i.Syscall? {
        r := HandleSyscall(i.num);
      }
      if r.Ok? {
        pc := pc + 1;
      }
    }

    method StepOnce(p: Program) returns (r: StepResult)
      requires Valid()
      modifies this, heap, vfs
      ensures heap == old(heap) && vfs == old(vfs) && Valid()
      ensures (State(), r) == Step(p, old(State()))
    {
      hide Flat, WellFormed, Execute;
      Bounds();
      StepKeeps(p, State());
      if pc >= |p| || p[pc].Halt? {
        return Halted;
      }
      var done := ExecuteInst(p[pc]);
      if done.Err? {
        return Error(done.error);
      }
      steps := steps + 1;
      r := Continue;
    }

    /** `run` returns exactly when the run stops; `fuel` is any number of steps after which it has. */
    method Run(p: Program, ghost fuel: nat) returns (r: Result<nat, VMError>)
      requires Valid() && !Step(p, StepN(p, State(), fuel)).1.Continue?
      modifies this, heap, vfs
      ensures heap == old(heap) && vfs == old(vfs) && Valid()
      ensures RunsTo(p, old(State()), State(), if r.Ok? then Halted else Error(r.error))
      ensures r.Ok? ==> r.value == steps
    {
      hide Step, Execute, WellFormed, Flat;
      ghost var taken: nat := 0;
      while true
        invariant heap == old(heap) && vfs == old(vfs) && Valid() && taken <= fuel
        invariant State() == StepN(p, old(State()), taken)
        decreases fuel - taken
      {
        StepKeeps(p, State());
        OneMore(p, old(State()), taken);
        var s := StepOnce(p);
        if !s.Continue? {
          Stopped(p, old(State()), taken, s);
          match s {
            case Halted => return Ok(steps);
            case Error(e) => return Err(e);
          }
        }
        StopBound(p, old(State()), taken, fuel);
        taken := taken + 1;
      }
    }

    method RunBoundedTo(p: Program, maxSteps: nat) returns (n: nat, halted: bool)
      requires Valid()
      modifies this, heap, vfs
      ensures heap == old(heap) && vfs == old(vfs) && Valid()
      ensures (State(), halted) == RunBounded(p, old(State()), maxSteps) && n == steps
    {
      hide Step, Execute, WellFormed, Flat;
      var i := 0;
      while i < maxSteps
        invariant 0 <= i <= maxSteps
        invariant heap == old(heap) && vfs == old(vfs) && Valid()
        invariant RunBounded(p, State(), maxSteps - i) == RunBounded(p, old(State()), maxSteps)
      {
        StepKeeps(p, State());
        var s := StepOnce(p);
        match s {
          case Continue =>
          case Halted => return steps, true;
          case Error(_) => return steps, false;
        }
        i := i + 1;
      }
      return steps, false;
    }
  }

  /** A system call either reaches the state the specification names or fails and changes nothing. */
  ghost predicate Outcome(before: VM, spec: Result<VM, VMError>, after: VM, r: Result<(), VMError>) {
    match spec
    case Ok(vm) => r.Ok? && after == vm
    case Err(e) => r == Err(e) && after == before
  }

  lemma OneMore(p: Program, vm: VM, n: nat)
    requires WellFormed(vm)
    ensures StepN(p, vm, n + 1) == Step(p, StepN(p, vm, n)).0
  {
    hide Step;
    StepNAdds(p, vm, n, 1);
    StepKeeps(p, StepN(p, vm, n));
    assert StepN(p, Step(p, StepN(p, vm, n)).0, 0) == Step(p, StepN(p, vm, n)).0;
  }

  lemma Stopped(p: Program, vm: VM, n: nat, s: StepResult)
    requires WellFormed(vm) && Step(p, StepN(p, vm, n)).1 == s && !s.Continue?
    ensures RunsTo(p, vm, StepN(p, vm, n), s)
  {
    hide Step;
    assert StopsAfter(p, vm, n, StepN(p, vm, n), s);
  }

  lemma StopBound(p: Program, vm: VM, n: nat, fuel: nat)
    requires WellFormed(vm) && Step(p, StepN(p, vm, n)).1.Continue?
    requires n <= fuel && !Step(p, StepN(p, vm, fuel)).1.Continue?
    ensures n < fuel
  {
  }
}
