/** Snapshots, deltas and migration of a machine (aeon-vm/src/snapshot.rs). */
module Snapshots {
  import opened Words
  import opened Inst
  import opened CowHeap
  import opened Machine
  import EventLog
  import Vfs
  import Vm

  const CURRENT_VERSION := 2

  datatype Snapshot = Snapshot(
    formatVersion: nat,
    programId: ProgramId,
    regs: seq<u64>,
    pc: usize,
    callStack: seq<usize>,
    steps: nat,
    heap: Option<seq<u8>>,
    heapTop: Option<usize>,
    fs: Vfs.Fs,
    eventLog: EventLog.Log)

  datatype SnapshotDelta = SnapshotDelta(
    formatVersion: nat,
    programId: ProgramId,
    regs: seq<u64>,
    pc: usize,
    callStack: seq<usize>,
    steps: nat,
    heapLen: nat,
    heapTop: usize,
    dirtyPages: seq<HeapPageDelta>,
    fs: Vfs.Fs,
    eventLog: EventLog.Log)

  datatype SnapshotError =
    | ProgramNotFound
    | HeapTopExceeds(heapTop: nat, heapLen: nat)
    | ProgramMismatch
    | HeapLengthMismatch(delta: nat, base: nat)
    | BadPage(error: HeapError)

  /** Programs are stored under their own id. */
  type ProgramStore = s: map<ProgramId, Program> | forall id :: id in s ==> IdOf(s[id]) == id
    witness map[]

  function CheckpointLog(vm: VM, now: u64): EventLog.Log {
    EventLog.Append(vm.eventLog, EventLog.Checkpoint(vm.programId, vm.pc, vm.steps), now)
  }

  function Capture(vm: VM, now: u64): Snapshot {
    Snapshot(CURRENT_VERSION, vm.programId, vm.regs, vm.pc, vm.callStack, vm.steps,
             Some(vm.heap.bytes), Some(vm.heapTop), vm.fs, CheckpointLog(vm, now))
  }

  /** A missing heap becomes the default one. */
  function HeapToRestore(s: Snapshot): seq<u8> {
    match s.heap case Some(bytes) => bytes case None => seq(DEFAULT_HEAP_SIZE, _ => 0)
  }

  /** The fields `restore` takes over, `heap_top` still unchecked. */
  function Unchecked(s: Snapshot, store: ProgramStore): VM
    requires s.programId in store
  {
    VM(IdOf(store[s.programId]), s.regs, s.pc, s.callStack, s.steps, Heap(HeapToRestore(s), {}),
       match s.heapTop case Some(t) => t case None => 0, s.fs, s.eventLog)
  }

  function Restore(s: Snapshot, store: ProgramStore): Result<VM, SnapshotError> {
    if s.programId !in store then Err(ProgramNotFound)
    else
      var vm := Unchecked(s, store);
      if vm.heapTop > |vm.heap.bytes| then Err(HeapTopExceeds(vm.heapTop, |vm.heap.bytes|)) else Ok(vm)
  }

  /** `d` is what capturing `vm` at time `now` produces. */
  ghost predicate IsDeltaOf(d: SnapshotDelta, vm: VM, now: u64) {
    && IsDirtyList(vm.heap, d.dirtyPages)
    && d == SnapshotDelta(CURRENT_VERSION, vm.programId, vm.regs, vm.pc, vm.callStack, vm.steps,
                          |vm.heap.bytes|, vm.heapTop, d.dirtyPages, vm.fs, CheckpointLog(vm, now))
  }

  /** Unlike `Restore`, a missing base heap counts as empty here. */
  function ApplyTo(d: SnapshotDelta, base: Snapshot): Result<Snapshot, SnapshotError> {
    var bytes := match base.heap case Some(bytes) => bytes case None => [];
    if d.programId != base.programId then Err(ProgramMismatch)
    else if |bytes| != d.heapLen then Err(HeapLengthMismatch(d.heapLen, |bytes|))
    else
      var (heap, put) := PutPages(Heap(bytes, {}), d.dirtyPages);
      if put.Err? then Err(BadPage(put.error))
      else Ok(Snapshot(d.formatVersion, d.programId, d.regs, d.pc, d.callStack, d.steps,
                       Some(heap.bytes), Some(d.heapTop), d.fs, d.eventLog))
  }

  method CaptureSnapshot(vm: Vm.VMState, now: u64) returns (s: Snapshot)
    requires vm.Valid()
    ensures s == Capture(vm.State(), now)
  {
    var log := new EventLog.EventLog(vm.eventLog);
    var hash := log.AppendAt(EventLog.Checkpoint(vm.programId, vm.pc, vm.steps), now);
    var bytes := vm.heap.ToVec();
    s := Snapshot(CURRENT_VERSION, vm.programId, vm.regs, vm.pc, vm.callStack, vm.steps,
                  Some(bytes), Some(vm.heapTop), vm.vfs.View(), log.entries);
  }

  method FillMachine(s: Snapshot, store: ProgramStore) returns (vm: Vm.VMState)
    requires |HeapToRestore(s)| < TWO64 && s.programId in store
    ensures fresh(vm) && vm.heap.Valid() && vm.State() == Unchecked(s, store)
  {
    hide WellFormed, New, Flat, Touched;
    vm := new Vm.VMState(store[s.programId]);
    vm.regs := s.regs;
    vm.pc := s.pc;
    vm.callStack := s.callStack;
    vm.steps := s.steps;
    vm.heap := COWHeap.FromBytes(match s.heap case Some(bytes) => bytes case None => seq(DEFAULT_HEAP_SIZE, _ => 0));
    vm.heapTop := match s.heapTop case Some(t) => t case None => 0;
    vm.vfs := new Vfs.VirtualFS.From(s.fs);
    vm.eventLog := s.eventLog;
  }

  method RestoreMachine(s: Snapshot, store: ProgramStore) returns (r: Result<Vm.VMState, SnapshotError>)
    requires |HeapToRestore(s)| < TWO64
    ensures r.Ok? <==> Restore(s, store).Ok?
    ensures r.Err? ==> Restore(s, store) == Err(r.error)
    ensures r.Ok? ==> fresh(r.value) && r.value.heap.Valid() && Restore(s, store) == Ok(r.value.State())
  {
    hide WellFormed, Flat, HeapToRestore;
    if s.programId !in store {
      return Err(ProgramNotFound);
    }
    var vm := FillMachine(s, store);
    if vm.heapTop > vm.heap.len {
      return Err(HeapTopExceeds(vm.heapTop, vm.heap.len));
    }
    r := Ok(vm);
  }

  method CaptureDelta(vm: Vm.VMState, now: u64) returns (d: SnapshotDelta)
    requires vm.Valid()
    ensures IsDeltaOf(d, vm.State(), now)
  {
    var log := new EventLog.EventLog(vm.eventLog);
    var hash := log.AppendAt(EventLog.Checkpoint(vm.programId, vm.pc, vm.steps), now);
    var pages := vm.heap.DirtyPages();
    d := SnapshotDelta(CURRENT_VERSION, vm.programId, vm.regs, vm.pc, vm.callStack, vm.steps,
                       vm.heap.len, vm.heapTop, pages, vm.vfs.View(), log.entries);
  }

  method ApplyDelta(d: SnapshotDelta, base: Snapshot) returns (r: Result<Snapshot, SnapshotError>)
    requires base.heap.Some? ==> |base.heap.value| < TWO64
    ensures r == ApplyTo(d, base)
  {
    if d.programId != base.programId {
      return Err(ProgramMismatch);
    }
    var heap := COWHeap.FromBytes(match base.heap case Some(bytes) => bytes case None => []);
    if heap.len != d.heapLen {
      return Err(HeapLengthMismatch(d.heapLen, heap.len));
    }
    var put := heap.ApplyPages(d.dirtyPages);
    if put.Err? {
      return Err(BadPage(put.error));
    }
    var bytes := heap.ToVec();
    r := Ok(Snapshot(d.formatVersion, d.programId, d.regs, d.pc, d.callStack, d.steps,
                     Some(bytes), Some(d.heapTop), d.fs, d.eventLog));
  }

  // ----- what a capture holds and what the other side refuses -----

  /** A capture is the machine, field by field, with one checkpoint of it behind its log. */
  lemma CaptureHolds(vm: VM, now: u64)
    ensures var s := Capture(vm, now);
            && s.formatVersion == 2 && s.programId == vm.programId && s.regs == vm.regs && s.pc == vm.pc
            && s.callStack == vm.callStack && s.steps == vm.steps && s.heap == Some(vm.heap.bytes) && s.heapTop == Some(vm.heapTop)
            && s.fs == vm.fs && |s.eventLog| == |vm.eventLog| + 1 && vm.eventLog <= s.eventLog
            && s.eventLog[|vm.eventLog|].event == EventLog.Checkpoint(vm.programId, vm.pc, vm.steps)
            && s.eventLog[|vm.eventLog|].timestampMs == now
  {
    EventLog.AppendStores(vm.eventLog, EventLog.Checkpoint(vm.programId, vm.pc, vm.steps), now);
  }

  /** Restoring: an unknown program and a bump pointer outside the heap are refused; a missing heap is 1 MiB of zeros, a missing
      bump pointer 0, and no page starts dirty. */
  lemma RestoreMeans(s: Snapshot, store: ProgramStore)
    ensures var r := Restore(s, store);
            if s.programId !in store then r == Err(ProgramNotFound)
            else
              var bytes := if s.heap.Some? then s.heap.value else seq(1_048_576, _ => 0);
              var top := if s.heapTop.Some? then s.heapTop.value else 0;
              if top > |bytes| then r == Err(HeapTopExceeds(top, |bytes|))
              else && r.Ok? && r.value.programId == s.programId && r.value.regs == s.regs && r.value.pc == s.pc
                   && r.value.callStack == s.callStack && r.value.steps == s.steps && r.value.heap == Heap(bytes, {})
                   && r.value.heapTop == top && r.value.fs == s.fs && r.value.eventLog == s.eventLog
  {
    assert DEFAULT_HEAP_SIZE == 1_048_576;
  }

  /** Applying a delta: another program, another heap length and a page that cannot be put are refused, in this order; else the
      result has the delta's fields and its pages over the base. */
  lemma ApplyToMeans(d: SnapshotDelta, base: Snapshot)
    ensures var r := ApplyTo(d, base);
            var bytes := if base.heap.Some? then base.heap.value else [];
            if d.programId != base.programId then r == Err(ProgramMismatch)
            else if |bytes| != d.heapLen then r == Err(HeapLengthMismatch(d.heapLen, |bytes|))
            else if exists k :: 0 <= k < |d.dirtyPages| && BadPageFor(|bytes|, d.dirtyPages[k]) then r.Err? && r.error.BadPage?
            else && r.Ok? && r.value == Snapshot(d.formatVersion, d.programId, d.regs, d.pc, d.callStack, d.steps, r.value.heap,
                                                 Some(d.heapTop), d.fs, d.eventLog)
                 && r.value.heap.Some? && |r.value.heap.value| == |bytes|
                 && forall i :: 0 <= i < |bytes| ==> PagesShow(d.dirtyPages, bytes, r.value.heap.value, i)
  {
    hide PutPages;
    var bytes := if base.heap.Some? then base.heap.value else [];
    PutPagesMeans(Heap(bytes, {}), d.dirtyPages);
  }

  // ----- delta + base == full snapshot -----

  /** After any run from a restored base, the delta rebuilds the full snapshot exactly when the base carried its heap. */
  lemma DeltaEqualsFull(base: Snapshot, store: ProgramStore, n: nat, d: SnapshotDelta, now: u64)
    requires base.programId in store && Restore(base, store).Ok? && WellFormed(Restore(base, store).value)
    requires IsDeltaOf(d, StepN(store[base.programId], Restore(base, store).value, n), now)
    ensures ApplyTo(d, base) == Ok(Capture(StepN(store[base.programId], Restore(base, store).value, n), now))
            <==> base.heap.Some?
  {
    hide Step, Execute, PutPages, IsDirtyList;
    var p, vm := store[base.programId], Restore(base, store).value;
    StepNKeepsCover(p, vm, n, vm.heap.bytes);
    if base.heap.Some? {
      DirtyListRebuilds(StepN(p, vm, n).heap, vm.heap.bytes, d.dirtyPages);
    }
  }

  /** The snapshot of a new machine without its heap restores, yet no delta taken from it ever applies to it. */
  lemma NoHeapNoDelta(p: Program, store: ProgramStore, n: nat, d: SnapshotDelta, now: u64)
    requires IdOf(p) in store
    ensures var base := Capture(New(p), now).(heap := None);
            && Restore(base, store).Ok? && WellFormed(Restore(base, store).value)
            && (IsDeltaOf(d, StepN(store[IdOf(p)], Restore(base, store).value, n), now)
                ==> ApplyTo(d, base) == Err(HeapLengthMismatch(DEFAULT_HEAP_SIZE, 0)))
  {
    hide Step, Execute, PutPages, IsDirtyList;
  }

  // ----- migration -----

  /** The observable machine: everything but dirty marks and the event log, which a migration resets and extends. */
  function Observe(vm: VM): VM {
    vm.(heap := Heap(vm.heap.bytes, {}), eventLog := [])
  }

  lemma ObserveWellFormed(vm: VM)
    requires WellFormed(vm)
    ensures WellFormed(Observe(vm))
  {
  }

  /** Same answer, and the same observable machine behind it. */
  ghost predicate AlikeResults(a: Result<VM, VMError>, b: Result<VM, VMError>) {
    match (a, b)
    case (Ok(x), Ok(y)) => Observe(x) == Observe(y)
    case (Err(e), Err(f)) => e == f
    case _ => false
  }

  lemma SyscallObserved(vm: VM, num: u8)
    requires WellFormed(vm) && WellFormed(Observe(vm))
    ensures AlikeResults(DoSyscall(vm, num), DoSyscall(Observe(vm), num))
  {
    hide WellFormed, IsUtf8, Touched;
  }

  lemma ExecuteObserved(i: Inst, vm: VM)
    requires WellFormed(vm) && WellFormed(Observe(vm)) && vm.pc + 1 < TWO64 && !i.Halt?
    ensures AlikeResults(Execute(i, vm), Execute(i, Observe(vm)))
  {
    hide DoSyscall, WellFormed, Touched, LowByte, Value, Offset;
    if i.Syscall? {
      SyscallObserved(vm, i.num);
    }
  }

  lemma StepObserved(p: Program, vm: VM)
    requires WellFormed(vm)
    ensures WellFormed(Observe(vm))
    ensures Step(p, Observe(vm)).1 == Step(p, vm).1
    ensures Observe(Step(p, Observe(vm)).0) == Observe(Step(p, vm).0)
  {
    hide Execute, WellFormed;
    ObserveWellFormed(vm);
    if vm.pc < |p| && !p[vm.pc].Halt? {
      ExecuteObserved(p[vm.pc], vm);
    }
  }

  /** Machines that look alike keep looking alike, and answer alike. */
  lemma {:induction false} RunObserved(p: Program, a: VM, b: VM, n: nat)
    requires WellFormed(a) && WellFormed(b) && Observe(a) == Observe(b)
    ensures Observe(StepN(p, a, n)) == Observe(StepN(p, b, n))
    ensures Step(p, StepN(p, a, n)).1 == Step(p, StepN(p, b, n)).1
    decreases n
  {
    hide Step, Execute;
    StepObserved(p, a);
    StepObserved(p, b);
    if n > 0 {
      StepKeeps(p, a);
      StepKeeps(p, b);
      RunObserved(p, Step(p, a).0, Step(p, b).0, n - 1);
    }
  }

  /** Capturing a well-formed machine and restoring it elsewhere always succeeds and looks the same. */
  lemma RestoreCaptured(vm: VM, now: u64, store: ProgramStore)
    requires WellFormed(vm) && vm.programId in store
    ensures Restore(Capture(vm, now), store).Ok?
    ensures var r := Restore(Capture(vm, now), store).value;
            WellFormed(r) && Observe(r) == Observe(vm) && r.programId == vm.programId
            && r.eventLog == CheckpointLog(vm, now) && r.heap.dirty == {}
  {
  }

  /** One piece of a migrating run: at most `steps` steps, then a capture at clock reading `now`. */
  datatype Cut = Cut(steps: nat, now: u64)

  /** A run cut at every point of `cuts`, each piece bounded and then captured and restored. */
  ghost function MigratingRun(p: Program, vm: VM, cuts: seq<Cut>, store: ProgramStore): (r: VM)
    requires WellFormed(vm) && vm.programId in store
    ensures WellFormed(r)
    decreases |cuts|
  {
    if cuts == [] then vm else
      var piece := RunBounded(p, vm, cuts[0].steps).0;
      RunBoundedIsStepN(p, vm, cuts[0].steps);
      RestoreCaptured(piece, cuts[0].now, store);
      MigratingRun(p, Restore(Capture(piece, cuts[0].now), store).value, cuts[1..], store)
  }

  function Sum(cuts: seq<Cut>): nat { if cuts == [] then 0 else cuts[0].steps + Sum(cuts[1..]) }

  lemma {:induction false} MigratingRunObserved(p: Program, vm: VM, cuts: seq<Cut>, store: ProgramStore)
    requires WellFormed(vm) && vm.programId in store
    ensures Observe(MigratingRun(p, vm, cuts, store)) == Observe(StepN(p, vm, Sum(cuts)))
    decreases |cuts|
  {
    hide Step, Execute, Restore, Capture, Observe, WellFormed, RunBounded;
    if cuts != [] {
      var piece := RunBounded(p, vm, cuts[0].steps).0;
      RunBoundedIsStepN(p, vm, cuts[0].steps);
      RestoreCaptured(piece, cuts[0].now, store);
      var resumed := Restore(Capture(piece, cuts[0].now), store).value;
      MigratingRunObserved(p, resumed, cuts[1..], store);
      RunObserved(p, resumed, piece, Sum(cuts[1..]));
      StepNAdds(p, vm, cuts[0].steps, Sum(cuts[1..]));
    }
  }

  /** However often a run is migrated, it stops if and only if the uninterrupted run does, with the same answer and the same observable machine. */
  lemma MigrationInvisible(p: Program, vm: VM, cuts: seq<Cut>, store: ProgramStore, r: StepResult)
    requires WellFormed(vm) && vm.programId in store
    ensures forall final :: RunsTo(p, vm, final, r) ==>
              exists f :: RunsTo(p, MigratingRun(p, vm, cuts, store), f, r) && Observe(f) == Observe(final)
    ensures forall f :: RunsTo(p, MigratingRun(p, vm, cuts, store), f, r) ==>
              exists final :: RunsTo(p, vm, final, r) && Observe(f) == Observe(final)
  {
    hide Step, Execute, Observe;
    var m := MigratingRun(p, vm, cuts, store);
    var s := Sum(cuts);
    MigratingRunObserved(p, vm, cuts, store);
    forall final | RunsTo(p, vm, final, r)
      ensures exists f :: RunsTo(p, m, f, r) && Observe(f) == Observe(final)
    {
      var n: nat :| StopsAfter(p, vm, n, final, r);
      StepNAdds(p, vm, n, s);
      StepNAdds(p, vm, s, n);
      StoppedStays(p, final, s);
      assert StepN(p, StepN(p, vm, s), n) == final;
      RunObserved(p, m, StepN(p, vm, s), n);
      assert StopsAfter(p, m, n, StepN(p, m, n), r);
    }
    forall f | RunsTo(p, m, f, r)
      ensures exists final :: RunsTo(p, vm, final, r) && Observe(f) == Observe(final)
    {
      var n: nat :| StopsAfter(p, m, n, f, r);
      RunObserved(p, m, StepN(p, vm, s), n);
      StepNAdds(p, vm, s, n);
      assert StopsAfter(p, vm, s + n, StepN(p, vm, s + n), r);
    }
  }
}
