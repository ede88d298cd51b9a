/** The interpreter on a machine: stack cells in the heap, dictionary and runtime in files. */
module ForthFiles {
  import opened Words
  import opened Vfs

  const DICT_PATH: Path := [47, 102, 111, 114, 116, 104, 47, 100, 105, 99, 116]
  const RUNTIME_PATH: Path := [47, 102, 111, 114, 116, 104, 47, 114, 117, 110, 116, 105, 109, 101]
  const CHUNK := 4096

  datatype LoadError = NotReadable(error: FsError) | MissingLength | Cut | Undecodable

  lemma PathsAreText()
    ensures DICT_PATH == Bytes("/forth/dict") && RUNTIME_PATH == Bytes("/forth/runtime")
  {
  }

  function Bytes(s: string): seq<u8> { seq(|s|, i requires 0 <= i < |s| => s[i] as int % TWO8) }

  /** Opening and closing leaves a closed slot behind, a new one if there was none. */
  function Closed(fds: seq<Option<OpenFile>>): seq<Option<OpenFile>> { PutFd(fds, FreeSlot(fds), None) }

  /** A stored value: its length, then its bytes. */
  function Framed(payload: seq<u8>): seq<u8> { ToLe(|payload| % TWO64, 8) + payload }

  function Contents(fs: Fs, path: Path): seq<u8> { if path in fs.files then fs.files[path] else [] }

  function Saved(fs: Fs, path: Path, payload: seq<u8>): Fs {
    Fs(fs.files[path := Overwrite(Contents(fs, path), 0, Framed(payload))], Closed(fs.fds))
  }

  function ReadWhole(fs: Fs, path: Path): (Fs, Result<seq<u8>, FsError>) {
    if path !in fs.files then (fs, Err(FileNotFound(path))) else (fs.(fds := Closed(fs.fds)), Ok(fs.files[path]))
  }

  /** The payload a file's bytes frame; what follows it is ignored. */
  function Unframed(bytes: seq<u8>): Result<seq<u8>, LoadError> {
    if |bytes| < 8 then Err(MissingLength)
    else
      var end := 8 + FromLe(bytes[..8]);
      if |bytes| < end then Err(Cut) else Ok(bytes[8..end])
  }

  function Loaded(fs: Fs, path: Path): (Fs, Result<seq<u8>, LoadError>) {
    var (next, bytes) := ReadWhole(fs, path);
    (next, match bytes case Ok(b) => Unframed(b) case Err(e) => Err(NotReadable(e)))
  }

  function Decoded<T>(payload: Result<seq<u8>, LoadError>, decode: seq<u8> -> Option<T>): Result<T, LoadError> {
    match payload
    case Err(e) => Err(e)
    case Ok(bytes) => match decode(bytes) case Some(v) => Ok(v) case None => Err(Undecodable)
  }

  /** Loading finds `payload` under `path`. */
  ghost predicate Stores(fs: Fs, path: Path, payload: seq<u8>) { Loaded(fs, path).1 == Ok(payload) }

  lemma ClosedIsClosed(fds: seq<Option<OpenFile>>, f: OpenFile)
    ensures var fd := FreeSlot(fds); var used := PutFd(fds, fd, Some(f));
            fd < |used| && used[fd := None] == Closed(fds)
  {
  }

  lemma ClosedKeepsWellFormed(fs: Fs)
    requires WellFormed(fs)
    ensures WellFormed(fs.(fds := Closed(fs.fds)))
  {
  }

  /** A frame is read back, whatever follows it. */
  lemma FrameReads(file: seq<u8>, payload: seq<u8>)
    requires |payload| < TWO64 && |Framed(payload)| <= |file| && file[0..|Framed(payload)|] == Framed(payload)
    ensures Unframed(file) == Ok(payload)
  {
    hide ToLe, FromLe;
    var bytes := Framed(payload);
    U64Bytes(|payload|);
    assert file[..8] == bytes[..8] == ToLe(|payload|, 8);
    assert file[8..8 + |payload|] == bytes[8..] == payload;
  }

  /** Loading right after saving returns the saved value, whatever file was there before, an older and longer one included. */
  lemma LoadAfterSave(fs: Fs, path: Path, payload: seq<u8>)
    requires |payload| < TWO64
    ensures Stores(Saved(fs, path, payload), path, payload)
    ensures forall other, p :: other != path && Stores(fs, other, p) ==> Stores(Saved(fs, path, payload), other, p)
  {
    hide Framed, Unframed, Closed, Overwrite;
    var file := Overwrite(Contents(fs, path), 0, Framed(payload));
    assert file[0..|Framed(payload)|] == Framed(payload);
    FrameReads(file, payload);
  }

  lemma SavedKeepsWellFormed(fs: Fs, path: Path, payload: seq<u8>)
    requires WellFormed(fs)
    ensures WellFormed(Saved(fs, path, payload))
  {
    var r := Saved(fs, path, payload);
    forall fd | 0 <= fd < |r.fds| && r.fds[fd].Some? ensures DescriptorOk(r.files, r.fds[fd].value) {
      assert fd < |fs.fds| && r.fds[fd] == fs.fds[fd];
      assert DescriptorOk(fs.files, fs.fds[fd].value);
    }
  }

  /** A file too short for a length, one too short for the length it states, and what the others hold. */
  lemma UnframedMeans(bytes: seq<u8>)
    ensures |bytes| < 8 ==> Unframed(bytes) == Err(MissingLength)
    ensures |bytes| >= 8 && |bytes| - 8 < FromLe(bytes[..8]) ==> Unframed(bytes) == Err(Cut)
    ensures |bytes| >= 8 && |bytes| - 8 >= FromLe(bytes[..8]) ==> Unframed(bytes) == Ok(bytes[8..8 + FromLe(bytes[..8])])
  {
  }

  method Save(vfs: VirtualFS, path: Path, payload: seq<u8>)
    requires WellFormed(vfs.View())
    modifies vfs
    ensures vfs.View() == Saved(old(vfs.View()), path, payload) && WellFormed(vfs.View())
  {
    hide Overwrite, ToLe;
    ghost var before := vfs.View();
    var bytes := ToLe(|payload| % TWO64, 8) + payload;
    ClosedIsClosed(before.fds, OpenFile(path, |bytes|, true));
    SavedKeepsWellFormed(before, path, payload);
    var fd := vfs.OpenPath(path, true);
    var written := vfs.WriteFd(fd.value, bytes);
    var closed := vfs.CloseFd(fd.value);
  }

  method ReadRaw(vfs: VirtualFS, path: Path) returns (r: Result<seq<u8>, FsError>)
    requires WellFormed(vfs.View())
    modifies vfs
    ensures (vfs.View(), r) == ReadWhole(old(vfs.View()), path) && WellFormed(vfs.View())
  {
    ghost var before := vfs.View();
    var fd := vfs.OpenPath(path, false);
    if fd.Err? {
      return Err(fd.error);
    }
    ClosedKeepsWellFormed(before);
    var bytes: seq<u8> := [];
    ghost var file := before.files[path];
    while true
      invariant |bytes| <= |file| && bytes == file[..|bytes|]
      invariant vfs.View() == Fs(before.files, PutFd(before.fds, fd.value, Some(OpenFile(path, |bytes|, false))))
      decreases |file| - |bytes|
    {
      var chunk := vfs.ReadFd(fd.value, CHUNK);
      if |chunk.value| == 0 {
        assert |bytes| == |file| && bytes == file;
        break;
      }
      bytes := bytes + chunk.value;
    }
    assert bytes == file;
    assert vfs.View() == Fs(before.files, PutFd(before.fds, fd.value, Some(OpenFile(path, |bytes|, false))));
    ClosedIsClosed(before.fds, OpenFile(path, |bytes|, false));
    var closed := vfs.CloseFd(fd.value);
    assert vfs.View() == before.(fds := Closed(before.fds));
    r := Ok(bytes);
  }

  method Load<T>(vfs: VirtualFS, path: Path, decode: seq<u8> -> Option<T>) returns (r: Result<T, LoadError>)
    requires WellFormed(vfs.View())
    modifies vfs
    ensures vfs.View() == Loaded(old(vfs.View()), path).0 && WellFormed(vfs.View())
    ensures r == Decoded(Loaded(old(vfs.View()), path).1, decode)
  {
    var bytes := ReadRaw(vfs, path);
    if bytes.Err? {
      return Err(NotReadable(bytes.error));
    }
    if |bytes.value| < 8 {
      return Err(MissingLength);
    }
    var end := 8 + FromLe(bytes.value[..8]);
    if |bytes.value| < end {
      return Err(Cut);
    }
    match decode(bytes.value[8..end]) {
      case Some(v) => r := Ok(v);
      case None => r := Err(Undecodable);
    }
  }
}

module ForthMachine {
  import opened Words
  import opened CowHeap
  import opened ForthSpec
  import Machine
  import Vm
  import Vfs
  import Asm
  import F = ForthFiles

  const STACK_REG := 200
  const STACK_BASE := 64 * 1024
  const STACK_LIMIT := STACK_BASE + 64 * 1024

  /** How many cells a heap of that length has room for. */
  function Cap(heapLen: nat): Room {
    var end := if heapLen < STACK_LIMIT then heapLen else STACK_LIMIT;
    if end < STACK_BASE then -1 else (end - STACK_BASE) / 8
  }

  function CapOf(vm: Machine.VM): Room { Cap(|vm.heap.bytes|) }

  /** The stack pointer is 8-aligned, in its 64 KiB region, and inside the heap unless the stack is empty. */
  ghost predicate StackOk(vm: Machine.VM) {
    && Machine.WellFormed(vm)
    && STACK_BASE <= vm.regs[STACK_REG] <= STACK_BASE + 8 * Slots(CapOf(vm))
    && (vm.regs[STACK_REG] - STACK_BASE) % 8 == 0
  }

  function Depth(vm: Machine.VM): nat
    requires |vm.regs| == Machine.REGISTERS && vm.regs[STACK_REG] >= STACK_BASE
  {
    (vm.regs[STACK_REG] - STACK_BASE) / 8
  }

  /** The eight bytes at `addr` as a number. */
  function CellAt(bytes: seq<u8>, addr: nat): u64
    requires addr + 8 <= |bytes|
  {
    U64FromBytes(bytes[addr..addr + 8]);
    FromLe(bytes[addr..addr + 8])
  }

  ghost function Cells(vm: Machine.VM): (r: seq<u64>)
    requires StackOk(vm)
    ensures |r| == Depth(vm) <= Slots(CapOf(vm))
  {
    seq(Depth(vm), k requires 0 <= k < Depth(vm) => CellAt(vm.heap.bytes, STACK_BASE + 8 * k))
  }

  /** Everything but the stack pointer and the bytes of the stack region is as before. */
  ghost predicate SameElsewhere(a: Machine.VM, b: Machine.VM) {
    && b == a.(regs := b.regs, heap := b.heap)
    && |a.regs| == |b.regs| && |a.heap.bytes| == |b.heap.bytes|
    && (forall r :: 0 <= r < |a.regs| && r != STACK_REG ==> a.regs[r] == b.regs[r])
    && (forall i :: 0 <= i < |a.heap.bytes| && !(STACK_BASE <= i < STACK_LIMIT) ==> a.heap.bytes[i] == b.heap.bytes[i])
  }

  /** `vm` came from `before` by stack operations alone and now holds `cells`. */
  ghost predicate Holds(before: Machine.VM, vm: Machine.VM, cells: seq<u64>) {
    StackOk(vm) && SameElsewhere(before, vm) && Cells(vm) == cells
  }

  function Pushed(vm: Machine.VM, v: u64): Machine.VM
    requires Machine.WellFormed(vm) && vm.regs[STACK_REG] + 8 <= |vm.heap.bytes|
  {
    vm.(regs := vm.regs[STACK_REG := vm.regs[STACK_REG] + 8], heap := Update(vm.heap, vm.regs[STACK_REG], ToLe(v, 8)))
  }

  lemma CapRoom(vm: Machine.VM)
    requires StackOk(vm)
    ensures Depth(vm) < CapOf(vm) <==> vm.regs[STACK_REG] + 8 <= STACK_LIMIT && vm.regs[STACK_REG] + 8 <= |vm.heap.bytes|
    ensures vm.regs[STACK_REG] == STACK_BASE + 8 * Depth(vm)
    ensures vm.regs[STACK_REG] <= STACK_LIMIT && (Depth(vm) > 0 ==> vm.regs[STACK_REG] <= |vm.heap.bytes|)
    ensures CapOf(vm) >= 0 <==> vm.regs[STACK_REG] <= |vm.heap.bytes|
  {
  }

  /** Writing eight bytes at the pointer and moving it up appends one cell. */
  lemma PushAppends(vm: Machine.VM, v: u64)
    requires StackOk(vm) && Depth(vm) < CapOf(vm)
    ensures vm.regs[STACK_REG] + 8 <= |vm.heap.bytes| && Holds(vm, Pushed(vm, v), Cells(vm) + [v])
  {
    CapRoom(vm);
    U64Bytes(v);
    var n, at := Depth(vm), vm.regs[STACK_REG];
    var next := Pushed(vm, v);
    assert at == STACK_BASE + 8 * n;
    PushedOk(vm, v);
    assert next.heap.bytes[at..at + 8] == ToLe(v, 8);
    forall k | 0 <= k < n ensures CellAt(next.heap.bytes, STACK_BASE + 8 * k) == CellAt(vm.heap.bytes, STACK_BASE + 8 * k) {
      var a := STACK_BASE + 8 * k;
      assert next.heap.bytes[a..a + 8] == vm.heap.bytes[a..a + 8];
    }
    assert Depth(next) == n + 1;
    assert Cells(next) == Cells(vm) + [v];
  }

  lemma PushedOk(vm: Machine.VM, v: u64)
    requires StackOk(vm) && Depth(vm) < CapOf(vm)
    ensures vm.regs[STACK_REG] + 8 <= |vm.heap.bytes|
    ensures StackOk(Pushed(vm, v)) && SameElsewhere(vm, Pushed(vm, v))
  {
    CapRoom(vm);
    Machine.UpdateKeepsPages(vm.heap, vm.regs[STACK_REG], ToLe(v, 8));
  }

  function Popped(vm: Machine.VM): Machine.VM
    requires |vm.regs| == Machine.REGISTERS && vm.regs[STACK_REG] >= 8
  {
    vm.(regs := vm.regs[STACK_REG := vm.regs[STACK_REG] - 8])
  }

  /** Moving the pointer down removes the last cell; the heap keeps its bytes. */
  lemma PopRemoves(vm: Machine.VM)
    requires StackOk(vm) && Depth(vm) > 0
    ensures vm.regs[STACK_REG] <= |vm.heap.bytes|
    ensures Cells(vm)[Depth(vm) - 1] == CellAt(vm.heap.bytes, vm.regs[STACK_REG] - 8)
    ensures Holds(vm, Popped(vm), Cells(vm)[..Depth(vm) - 1])
  {
    CapRoom(vm);
    var n := Depth(vm);
    assert vm.regs[STACK_REG] - 8 == STACK_BASE + 8 * (n - 1);
    assert StackOk(Popped(vm)) && Depth(Popped(vm)) == n - 1;
    assert Cells(Popped(vm)) == Cells(vm)[..n - 1];
  }

  // ----- the stack operations -----

  method PushCell(vm: Vm.VMState, v: u64) returns (r: Result<(), ForthError>)
    requires vm.Valid() && StackOk(vm.State())
    modifies vm`regs, vm.heap
    ensures vm.Valid()
    ensures |Cells(old(vm.State()))| < CapOf(old(vm.State())) ==>
              r == Ok(()) && Holds(old(vm.State()), vm.State(), Cells(old(vm.State())) + [v])
    ensures |Cells(old(vm.State()))| >= CapOf(old(vm.State())) ==> r == Err(StackOverflow) && vm.State() == old(vm.State())
  {
    hide Cells, Machine.WellFormed, Flat, Update, Cap, ToLe;
    ghost var before := vm.State();
    PointerRoom(before);
    var ptr := vm.regs[STACK_REG];
    var end := ptr + 8;
    if ptr < STACK_BASE || end > STACK_LIMIT || end > vm.heap.len {
      return Err(StackOverflow);
    }
    PushAppends(before, v);
    var w := vm.heap.Write(ptr, ToLe(v, 8));
    vm.regs := vm.regs[STACK_REG := end];
    assert vm.State() == Pushed(before, v);
    r := Ok(());
  }

  lemma PointerRoom(vm: Machine.VM)
    requires StackOk(vm)
    ensures |vm.regs| == Machine.REGISTERS && vm.regs[STACK_REG] >= STACK_BASE && vm.regs[STACK_REG] + 8 < TWO64
    ensures |Cells(vm)| < CapOf(vm) <==> vm.regs[STACK_REG] + 8 <= STACK_LIMIT && vm.regs[STACK_REG] + 8 <= |vm.heap.bytes|
    ensures Cells(vm) == [] <==> vm.regs[STACK_REG] <= STACK_BASE
    ensures vm.regs[STACK_REG] <= STACK_LIMIT && (Cells(vm) != [] ==> vm.regs[STACK_REG] <= |vm.heap.bytes|)
    ensures CapOf(vm) >= 0 <==> vm.regs[STACK_REG] <= |vm.heap.bytes|
  {
    CapRoom(vm);
  }

  method PopCell(vm: Vm.VMState) returns (r: Result<u64, ForthError>)
    requires vm.Valid() && StackOk(vm.State())
    modifies vm`regs
    ensures vm.Valid()
    ensures var cells := Cells(old(vm.State()));
            if cells == [] then r == Err(StackUnderflow) && vm.State() == old(vm.State())
            else r == Ok(cells[|cells| - 1]) && Holds(old(vm.State()), vm.State(), cells[..|cells| - 1])
  {
    hide Cells, Machine.WellFormed, Flat, Cap, FromLe;
    ghost var before := vm.State();
    PointerRoom(before);
    var ptr := vm.regs[STACK_REG];
    if ptr <= STACK_BASE || ptr > STACK_LIMIT || ptr > vm.heap.len {
      return Err(StackUnderflow);
    }
    PopRemoves(before);
    var start := ptr - 8;
    var bytes := vm.heap.Read(start, 8);
    U64FromBytes(bytes.value);
    vm.regs := vm.regs[STACK_REG := start];
    assert vm.State() == Popped(before);
    r := Ok(FromLe(bytes.value));
  }

  /** `stack`: the cells read off the heap one by one. */
  method StackValues(vm: Vm.VMState) returns (r: Result<seq<u64>, ForthError>)
    requires vm.Valid() && StackOk(vm.State())
    ensures r == if CapOf(vm.State()) < 0 then Err(StackUnderflow) else Ok(Cells(vm.State()))
  {
    hide Machine.WellFormed, Flat, FromLe;
    ghost var s := vm.State();
    PointerRoom(s);
    CapRoom(s);
    var ptr := vm.regs[STACK_REG];
    if ptr < STACK_BASE || ptr > STACK_LIMIT || ptr > vm.heap.len {
      return Err(StackUnderflow);
    }
    if (ptr - STACK_BASE) % 8 != 0 {
      return Err(BadControl("stack pointer is unaligned"));
    }
    var values: seq<u64> := [];
    var addr: u64 := STACK_BASE;
    while addr < ptr
      invariant STACK_BASE <= addr <= ptr && addr == STACK_BASE + 8 * |values|
      invariant values == Cells(s)[..|values|]
    {
      var bytes := vm.heap.Read(addr, 8);
      U64FromBytes(bytes.value);
      assert FromLe(bytes.value) == CellAt(s.heap.bytes, addr) == Cells(s)[|values|];
      values := values + [FromLe(bytes.value)];
      addr := addr + 8;
    }
    assert CapOf(s) >= 0 && values == Cells(s);
    r := Ok(values);
  }

  // ----- one interpreter step on the machine -----

  /** The machine after a step, tied to what the list machine says. */
  ghost predicate Steps(before: Machine.VM, rt: Runtime, after: Machine.VM, rt': Runtime, r: Result<(), ForthError>, o: Outcome) {
    Holds(before, after, o.state.cells) && rt' == o.state.rt && r == o.result
  }

  method Combined(vm: Vm.VMState, ghost rt: Runtime, f: (u64, u64) -> u64) returns (r: Result<(), ForthError>)
    requires vm.Valid() && StackOk(vm.State())
    modifies vm`regs, vm.heap
    ensures vm.Valid()
    ensures Steps(old(vm.State()), rt, vm.State(), rt, r, Combine(CapOf(old(vm.State())), State(Cells(old(vm.State())), rt), f))
  {
    hide Cells, StackOk, SameElsewhere, Cap, Machine.WellFormed, Flat;
    ghost var s0 := vm.State();
    Same(s0);
    var b := PopCell(vm);
    if b.Err? {
      return Err(b.error);
    }
    ghost var s1 := vm.State();
    var a := PopCell(vm);
    if a.Err? {
      return Err(a.error);
    }
    ghost var s2 := vm.State();
    Chain(s0, s1, s2);
    r := PushCell(vm, f(a.value, b.value));
    if r.Ok? { Chain(s0, s2, vm.State()); }
  }

  lemma Same(a: Machine.VM)
    requires StackOk(a)
    ensures Holds(a, a, Cells(a))
  {
  }

  /** Stack operations compose, and leave the room as it was. */
  lemma Chain(a: Machine.VM, b: Machine.VM, c: Machine.VM)
    requires StackOk(b) && SameElsewhere(a, b) && StackOk(c) && SameElsewhere(b, c)
    ensures Holds(a, c, Cells(c)) && CapOf(a) == CapOf(c)
  {
  }

  method PushCells(vm: Vm.VMState, ghost rt: Runtime, vs: seq<u64>) returns (r: Result<(), ForthError>)
    requires vm.Valid() && StackOk(vm.State())
    modifies vm`regs, vm.heap
    ensures vm.Valid()
    ensures Steps(old(vm.State()), rt, vm.State(), rt, r, PushAll(CapOf(old(vm.State())), State(Cells(old(vm.State())), rt), vs))
  {
    hide Cells, StackOk, SameElsewhere, Cap, Machine.WellFormed, Flat;
    ghost var s0 := vm.State();
    Same(s0);
    var i := 0;
    while i < |vs|
      invariant 0 <= i <= |vs| && vm.heap == old(vm.heap) && vm.vfs == old(vm.vfs) && vm.Valid()
      invariant StackOk(vm.State())
      invariant Holds(s0, vm.State(), Cells(vm.State())) && CapOf(vm.State()) == CapOf(s0)
      invariant PushAll(CapOf(s0), State(Cells(vm.State()), rt), vs[i..]) == PushAll(CapOf(s0), State(Cells(s0), rt), vs)
    {
      ghost var s1 := vm.State();
      assert vs[i..][1..] == vs[i + 1..];
      r := PushCell(vm, vs[i]);
      if r.Err? {
        return;
      }
      Chain(s0, s1, vm.State());
      i := i + 1;
    }
    r := Ok(());
  }

  method StackWordOn(vm: Vm.VMState, ghost rt: Runtime, w: string) returns (r: Result<(), ForthError>)
    requires vm.Valid() && StackOk(vm.State()) && IsStackWord(w)
    modifies vm`regs, vm.heap
    ensures vm.Valid()
    ensures Steps(old(vm.State()), rt, vm.State(), rt, r, StackWord(CapOf(old(vm.State())), State(Cells(old(vm.State())), rt), w))
  {
    hide Cells, StackOk, SameElsewhere, Cap, Machine.WellFormed, Flat, Combine, PushAll, Holds;
    match w {
      case "+" => r := Combined(vm, rt, (a: u64, b: u64) => WrapAdd(a, b));
      case "-" => r := Combined(vm, rt, (a: u64, b: u64) => WrapSub(a, b));
      case "*" => r := Combined(vm, rt, (a: u64, b: u64) => WrapMul(a, b));
      case "=" => r := Combined(vm, rt, (a: u64, b: u64) => Flag(a == b));
      case "<" => r := Combined(vm, rt, (a: u64, b: u64) => Flag(a < b));
      case ">" => r := Combined(vm, rt, (a: u64, b: u64) => Flag(a > b));
      case "then" =>
        Same(vm.State());
        r := Ok(());
      case "depth" => r := DepthWord(vm, rt);
      case _ => r := Shuffle(vm, rt, w);
    }
  }

  method DepthWord(vm: Vm.VMState, ghost rt: Runtime) returns (r: Result<(), ForthError>)
    requires vm.Valid() && StackOk(vm.State())
    modifies vm`regs, vm.heap
    ensures vm.Valid()
    ensures Steps(old(vm.State()), rt, vm.State(), rt, r, StackWord(CapOf(old(vm.State())), State(Cells(old(vm.State())), rt), "depth"))
  {
    hide StackOk, SameElsewhere, Cap, Machine.WellFormed, Flat, CellAt;
    ghost var s0 := vm.State();
    Same(s0);
    PointerRoom(s0);
    var ptr := vm.regs[STACK_REG];
    if ptr < STACK_BASE || ptr > STACK_LIMIT || ptr > vm.heap.len {
      return Err(StackUnderflow);
    }
    var depth := (ptr - STACK_BASE) / 8;
    r := PushCell(vm, depth % TWO64);
  }

  /** dup, swap, over and drop */
  method Shuffle(vm: Vm.VMState, ghost rt: Runtime, w: string) returns (r: Result<(), ForthError>)
    requires vm.Valid() && StackOk(vm.State()) && w in {"dup", "swap", "over", "drop"}
    modifies vm`regs, vm.heap
    ensures vm.Valid()
    ensures Steps(old(vm.State()), rt, vm.State(), rt, r, StackWord(CapOf(old(vm.State())), State(Cells(old(vm.State())), rt), w))
  {
    hide Cells, StackOk, SameElsewhere, Cap, Machine.WellFormed, Flat, Combine, PushAll;
    ghost var s0 := vm.State();
    Same(s0);
    var b := PopCell(vm);
    if b.Err? {
      return Err(b.error);
    }
    ghost var s1 := vm.State();
    if w == "drop" {
      return Ok(());
    }
    if w == "dup" {
      r := PushCells(vm, rt, [b.value, b.value]);
      Chain(s0, s1, vm.State());
      return;
    }
    var a := PopCell(vm);
    if a.Err? {
      return Err(a.error);
    }
    ghost var s2 := vm.State();
    Chain(s0, s1, s2);
    r := PushCells(vm, rt, if w == "swap" then [b.value, a.value] else [a.value, b.value, a.value]);
    Chain(s0, s2, vm.State());
  }

  method VariableOn(vm: Vm.VMState, rt: Runtime, w: string) returns (rt': Runtime, r: Result<(), ForthError>)
    requires vm.Valid() && StackOk(vm.State()) && w in {"var", "set", "get"} && rt.envs != []
    modifies vm`regs, vm.heap
    ensures vm.Valid()
    ensures Steps(old(vm.State()), rt, vm.State(), rt', r, Variable(CapOf(old(vm.State())), State(Cells(old(vm.State())), rt), w))
  {
    hide Cells, StackOk, SameElsewhere, Cap, Machine.WellFormed, Flat, Holder, Bind;
    Same(vm.State());
    rt' := rt;
    if rt.ip >= |rt.tokens| {
      return rt', Err(BadControl(w));
    }
    var name := rt.tokens[rt.ip];
    rt' := rt'.(ip := rt.ip + 1);
    r := Ok(());
    if w == "var" {
      var last := |rt.envs| - 1;
      if name !in rt.envs[last] {
        rt' := rt'.(envs := rt.envs[last := rt.envs[last][name := 0]]);
      }
    } else if w == "set" {
      var value := PopCell(vm);
      if value.Err? {
        return rt', Err(value.error);
      }
      rt' := rt'.(envs := Bind(rt'.envs, name, value.value));
    } else {
      match Holder(rt.envs, name) {
        case None => r := Err(UnknownVariable(name));
        case Some(i) => r := PushCell(vm, rt.envs[i][name]);
      }
    }
  }

  method SkipOn(rt: Runtime, open: string, close: string) returns (rt': Runtime, r: Result<(), ForthError>)
    requires rt.ip <= |rt.tokens|
    ensures forall cells :: Skip(State(cells, rt), open, close) == Outcome(State(cells, rt'), r)
  {
    var depth, ip := 1, rt.ip;
    while ip < |rt.tokens|
      invariant rt.ip <= ip <= |rt.tokens| && depth > 0
      invariant SkipTo(rt.tokens, ip, depth, open, close) == SkipTo(rt.tokens, rt.ip, 1, open, close)
    {
      var token := rt.tokens[ip];
      ip := ip + 1;
      if token == open {
        depth := depth + 1;
      } else if token == close {
        depth := depth - 1;
        if depth == 0 {
          return rt.(ip := ip), Ok(());
        }
      }
    }
    return rt.(ip := ip), Err(BadControl(open));
  }

  method ControlOn(vm: Vm.VMState, rt: Runtime, w: string) returns (rt': Runtime, r: Result<(), ForthError>)
    requires vm.Valid() && StackOk(vm.State()) && IsControl(w) && rt.ip <= |rt.tokens|
    modifies vm`regs, vm.heap
    ensures vm.Valid()
    ensures Steps(old(vm.State()), rt, vm.State(), rt', r, Control(CapOf(old(vm.State())), State(Cells(old(vm.State())), rt), w))
  {
    hide Cells, StackOk, SameElsewhere, Cap, Machine.WellFormed, Flat, Skip;
    ghost var s0 := vm.State();
    Same(s0);
    rt' := rt;
    r := Ok(());
    if w == "i" {
      if rt.loops == [] {
        return rt', Err(BadControl(w));
      }
      r := PushCell(vm, rt.loops[|rt.loops| - 1].index);
    } else if w == "loop" {
      rt', r := LoopOn(rt);
    } else {
      var v := PopCell(vm);
      if v.Err? {
        return rt', Err(v.error);
      }
      ghost var s1 := vm.State();
      if w == "." {
        rt' := rt.(output := rt.output + [v.value]);
      } else if w == "if" {
        if v.value == 0 {
          rt', r := SkipOn(rt, "if", "then");
        }
      } else {
        var limit := PopCell(vm);
        if limit.Err? {
          return rt', Err(limit.error);
        }
        Chain(s0, s1, vm.State());
        if v.value >= limit.value {
          rt', r := SkipOn(rt, "do", "loop");
        } else {
          rt' := rt.(loops := rt.loops + [LoopFrame(rt.ip, v.value, limit.value)]);
        }
      }
    }
  }

  method LoopOn(rt: Runtime) returns (rt': Runtime, r: Result<(), ForthError>)
    ensures forall cells :: ForthSpec.Loop(State(cells, rt)) == Outcome(State(cells, rt'), r)
  {
    rt' := rt;
    if rt.loops == [] {
      return rt', Err(BadControl("loop"));
    }
    var last := |rt.loops| - 1;
    var l := rt.loops[last].(index := WrapAdd(rt.loops[last].index, 1));
    rt' := rt'.(loops := rt.loops[last := l]);
    if l.index < l.limit {
      rt' := rt'.(ip := l.startIp);
    } else {
      rt' := rt'.(loops := rt'.loops[..last]);
      assert rt'.loops == rt.loops[..last];
    }
    r := Ok(());
  }

  method OtherOn(vm: Vm.VMState, dict: Dictionary, rt: Runtime, w: string) returns (rt': Runtime, r: Result<(), ForthError>)
    requires vm.Valid() && StackOk(vm.State())
    modifies vm`regs, vm.heap
    ensures vm.Valid()
    ensures Steps(old(vm.State()), rt, vm.State(), rt', r, Other(CapOf(old(vm.State())), dict, State(Cells(old(vm.State())), rt), w))
  {
    hide Cells, StackOk, SameElsewhere, Cap, Machine.WellFormed, Flat, Asm.ParseRadix;
    Same(vm.State());
    rt' := rt;
    if w in dict {
      rt' := rt.(frames := rt.frames + [Frame(rt.tokens, rt.ip)], tokens := dict[w], ip := 0, envs := rt.envs + [map[]]);
      return rt', Ok(());
    }
    match Asm.ParseRadix(w, 10, TWO64 - 1) {
      case Some(n) => r := PushCell(vm, n);
      case None => r := Err(UnknownWord(w));
    }
  }

  method StepOnce(vm: Vm.VMState, dict: Dictionary, rt: Runtime) returns (rt': Runtime, r: Result<(), ForthError>)
    requires vm.Valid() && StackOk(vm.State()) && rt.envs != []
    modifies vm`regs, vm.heap
    ensures vm.Valid()
    ensures Steps(old(vm.State()), rt, vm.State(), rt', r, Step(CapOf(old(vm.State())), dict, State(Cells(old(vm.State())), rt)))
  {
    hide Cells, StackOk, SameElsewhere, Cap, Machine.WellFormed, Flat, Holds, StackWord, Variable, Control, Other;
    if rt.ip >= |rt.tokens| {
      Same(vm.State());
      rt' := rt;
      if rt.frames != [] {
        var n := |rt.frames| - 1;
        rt' := rt.(frames := rt.frames[..n], tokens := rt.frames[n].tokens, ip := rt.frames[n].ip,
                   envs := if |rt.envs| > 1 then rt.envs[..|rt.envs| - 1] else rt.envs);
      } else {
        rt' := rt.(halted := true);
      }
      return rt', Ok(());
    }
    var w := rt.tokens[rt.ip];
    rt' := rt.(ip := rt.ip + 1);
    if IsStackWord(w) {
      r := StackWordOn(vm, rt', w);
    } else if w in {"var", "set", "get"} {
      rt', r := VariableOn(vm, rt', w);
    } else if IsControl(w) {
      rt', r := ControlOn(vm, rt', w);
    } else {
      rt', r := OtherOn(vm, dict, rt', w);
    }
  }

  // ----- runs, with all state in the heap and in files -----

  /** The serializer: nothing is assumed about it but that decoding inverts encoding. */
  datatype Codec = Codec(
    encodeDict: Dictionary -> seq<u8>, decodeDict: seq<u8> -> Option<Dictionary>,
    encodeRuntime: Runtime -> seq<u8>, decodeRuntime: seq<u8> -> Option<Runtime>)

  ghost predicate Lawful(c: Codec) {
    && (forall d :: c.decodeDict(c.encodeDict(d)) == Some(d))
    && (forall rt :: c.decodeRuntime(c.encodeRuntime(rt)) == Some(rt))
  }

  /** The two files hold `dict` and `rt`. */
  ghost predicate Persisted(c: Codec, fs: Vfs.Fs, dict: Dictionary, rt: Runtime) {
    F.Stores(fs, F.DICT_PATH, c.encodeDict(dict)) && F.Stores(fs, F.RUNTIME_PATH, c.encodeRuntime(rt))
  }

  /** The machine carries the interpreter state `s`. */
  ghost predicate Carries(c: Codec, vm: Machine.VM, dict: Dictionary, s: State) {
    StackOk(vm) && Cells(vm) == s.cells && Persisted(c, vm.fs, dict, s.rt)
  }

  /** No runtime of the run is longer, encoded, than a vector can be. */
  ghost predicate Encodable(c: Codec, cap: Room, dict: Dictionary, s: State, n: nat)
    requires InBounds(cap, s)
  {
    forall k: nat :: k <= n ==> |c.encodeRuntime(Run(cap, dict, s, k).0.rt)| < TWO63
  }

  lemma PathsDiffer()
    ensures F.DICT_PATH != F.RUNTIME_PATH
  {
    assert |F.DICT_PATH| == 11 && |F.RUNTIME_PATH| == 14;
  }

  /** Replacing the file system alone keeps the stack. */
  lemma FsAside(vm: Machine.VM, fs: Vfs.Fs)
    requires StackOk(vm) && Vfs.WellFormed(fs)
    ensures StackOk(vm.(fs := fs)) && Cells(vm.(fs := fs)) == Cells(vm) && CapOf(vm.(fs := fs)) == CapOf(vm)
  {
  }

  /** Other files and all open descriptors are as before. */
  ghost predicate FilesAside(a: Vfs.Fs, b: Vfs.Fs) {
    && (forall p :: p != F.DICT_PATH && p != F.RUNTIME_PATH ==> (p in a.files <==> p in b.files))
    && (forall p :: p != F.DICT_PATH && p != F.RUNTIME_PATH && p in a.files && p in b.files ==> a.files[p] == b.files[p])
    && (forall fd :: 0 <= fd < |a.fds| && a.fds[fd].Some? ==> fd < |b.fds| && b.fds[fd] == a.fds[fd])
  }

  /** Everything but the stack and the interpreter's two files is as before. */
  ghost predicate Aside(a: Machine.VM, b: Machine.VM) {
    SameElsewhere(a, b.(fs := a.fs)) && FilesAside(a.fs, b.fs)
  }

  lemma AsideChain(a: Machine.VM, b: Machine.VM, c: Machine.VM)
    requires Aside(a, b) && Aside(b, c)
    ensures Aside(a, c)
  {
  }

  lemma SavedAside(vm: Machine.VM, path: Vfs.Path, payload: seq<u8>)
    requires path == F.DICT_PATH || path == F.RUNTIME_PATH
    ensures Aside(vm, vm.(fs := F.Saved(vm.fs, path, payload)))
  {
    hide F.Framed, Vfs.Overwrite;
  }

  lemma LoadedAside(vm: Machine.VM, path: Vfs.Path)
    ensures Aside(vm, vm.(fs := F.Loaded(vm.fs, path).0))
  {
    hide F.Unframed;
  }

  method SaveRuntime(c: Codec, vm: Vm.VMState, rt: Runtime, ghost dict: Dictionary)
    requires Lawful(c) && vm.Valid() && StackOk(vm.State())
    requires F.Stores(vm.State().fs, F.DICT_PATH, c.encodeDict(dict)) && |c.encodeRuntime(rt)| < TWO63
    modifies vm.vfs
    ensures vm.Valid() && Carries(c, vm.State(), dict, State(Cells(old(vm.State())), rt))
    ensures CapOf(vm.State()) == CapOf(old(vm.State())) && Aside(old(vm.State()), vm.State())
  {
    hide Cells, Cap, Flat, ToLe, F.Saved, F.Stores, Aside;
    ghost var before := vm.State();
    SavedAside(before, F.RUNTIME_PATH, c.encodeRuntime(rt));
    F.Save(vm.vfs, F.RUNTIME_PATH, c.encodeRuntime(rt));
    F.LoadAfterSave(before.fs, F.RUNTIME_PATH, c.encodeRuntime(rt));
    PathsDiffer();
    FsAside(before, vm.State().fs);
    assert vm.State() == before.(fs := vm.State().fs);
  }

  method LoadState(c: Codec, vm: Vm.VMState, ghost dict: Dictionary, ghost s: State) returns (d: Dictionary, rt: Runtime)
    requires Lawful(c) && vm.Valid() && Carries(c, vm.State(), dict, s)
    modifies vm.vfs
    ensures vm.Valid() && d == dict && rt == s.rt && Carries(c, vm.State(), dict, s)
    ensures CapOf(vm.State()) == CapOf(old(vm.State())) && Aside(old(vm.State()), vm.State())
  {
    hide Cells, Cap, Flat, Aside;
    ghost var before := vm.State();
    LoadKeepsFiles(before.fs, F.DICT_PATH);
    LoadedAside(before, F.DICT_PATH);
    var dict' := F.Load(vm.vfs, F.DICT_PATH, c.decodeDict);
    FsAside(before, vm.State().fs);
    assert vm.State() == before.(fs := vm.State().fs);
    ghost var between := vm.State();
    LoadKeepsFiles(between.fs, F.RUNTIME_PATH);
    LoadedAside(between, F.RUNTIME_PATH);
    var rt' := F.Load(vm.vfs, F.RUNTIME_PATH, c.decodeRuntime);
    FsAside(between, vm.State().fs);
    assert vm.State() == between.(fs := vm.State().fs);
    AsideChain(before, between, vm.State());
    d, rt := dict'.value, rt'.value;
  }

  lemma LoadKeepsFiles(fs: Vfs.Fs, path: Vfs.Path)
    ensures F.Loaded(fs, path).0.files == fs.files
    ensures forall other, p :: F.Stores(fs, other, p) ==> F.Stores(F.Loaded(fs, path).0, other, p)
  {
  }

  /** `run_steps` carries the interpreter through exactly the steps of the list machine: after any number of them, a failing
      one included, the heap holds its cells, the runtime file its last completed runtime, and the rest of the machine is untouched. */
  method RunSteps(c: Codec, vm: Vm.VMState, maxSteps: nat, ghost dict: Dictionary, ghost s: State)
    returns (r: Result<bool, ForthError>)
    requires Lawful(c) && vm.Valid() && Carries(c, vm.State(), dict, s)
    requires InBounds(CapOf(vm.State()), s) && Encodable(c, CapOf(vm.State()), dict, s, maxSteps)
    modifies vm`regs, vm.heap, vm.vfs
    ensures vm.Valid()
    ensures var (end, outcome) := Run(CapOf(old(vm.State())), dict, s, maxSteps);
            r == outcome && Carries(c, vm.State(), dict, end)
    ensures Aside(old(vm.State()), vm.State())
  {
    hide Step, Run, StackOk, Cells, F.Stores, Machine.WellFormed, Flat, Cap, Aside;
    ghost var cap, start := CapOf(vm.State()), vm.State();
    ghost var now := s;
    var i := 0;
    RunZero(cap, dict, s);
    AsideSelf(start);
    while i < maxSteps
      invariant 0 <= i <= maxSteps && vm.heap == old(vm.heap) && vm.vfs == old(vm.vfs) && vm.Valid()
      invariant InBounds(cap, now) && CapOf(vm.State()) == cap && Carries(c, vm.State(), dict, now)
      invariant Run(cap, dict, s, i) == (now, Ok(false)) && Aside(start, vm.State())
    {
      ghost var top := vm.State();
      RunsCompose(cap, dict, s, i, maxSteps - i);
      RunsCompose(cap, dict, s, i, 1);
      RunFirst(cap, dict, now, maxSteps - i);
      RunFirst(cap, dict, now, 1);
      var d, rt := LoadState(c, vm, dict, now);
      AsideChain(start, top, vm.State());
      if rt.halted {
        return Ok(true);
      }
      ghost var before := vm.State();
      var rt', stepped := StepOnce(vm, d, rt);
      ghost var o := Step(cap, dict, now);
      StepKeeps(cap, dict, now);
      SameFiles(before, vm.State(), o.state.cells);
      AsideChain(start, before, vm.State());
      ghost var after := vm.State();
      if stepped.Err? {
        return Err(stepped.error);
      }
      RunZero(cap, dict, o.state);
      assert Run(cap, dict, s, i + 1).0 == o.state;
      assert |c.encodeRuntime(Run(cap, dict, s, i + 1).0.rt)| < TWO63;
      SaveRuntime(c, vm, rt', dict);
      AsideChain(start, after, vm.State());
      now := o.state;
      if rt'.halted {
        return Ok(true);
      }
      i := i + 1;
    }
    return Ok(false);
  }

  lemma SameFiles(a: Machine.VM, b: Machine.VM, cells: seq<u64>)
    requires Holds(a, b, cells)
    ensures a.fs == b.fs && CapOf(a) == CapOf(b) && StackOk(b) && Cells(b) == cells && Aside(a, b)
  {
  }

  lemma AsideSelf(a: Machine.VM)
    ensures Aside(a, a)
  {
  }

  lemma RunZero(cap: Room, dict: Dictionary, s: State)
    requires InBounds(cap, s)
    ensures Run(cap, dict, s, 0) == (s, Ok(false))
  {
  }

  /** One turn of the loop, unfolded. */
  lemma RunFirst(cap: Room, dict: Dictionary, s: State, n: nat)
    requires InBounds(cap, s) && n > 0
    ensures var o := Step(cap, dict, s);
            InBounds(cap, o.state) &&
            Run(cap, dict, s, n) ==
              if s.rt.halted then (s, Ok(true))
              else if o.result.Err? then (State(o.state.cells, s.rt), Err(o.result.error))
              else if o.state.rt.halted then (o.state, Ok(true))
              else Run(cap, dict, o.state, n - 1)
  {
    hide Step;
    StepKeeps(cap, dict, s);
  }

  /** `start`, once the source is compiled: an empty stack and a fresh runtime. */
  method Start(c: Codec, vm: Vm.VMState, dict: Dictionary, tokens: seq<string>)
    requires Lawful(c) && vm.Valid()
    requires |c.encodeDict(dict)| < TWO63 && |c.encodeRuntime(Fresh(tokens))| < TWO63
    modifies vm`regs, vm.vfs
    ensures vm.Valid() && Carries(c, vm.State(), dict, State([], Runtime(tokens, 0, [], [], [map[]], [], false)))
    ensures InBounds(CapOf(vm.State()), State([], Fresh(tokens))) && Aside(old(vm.State()), vm.State())
  {
    hide Flat, ToLe, F.Saved, F.Stores, CellAt, Aside;
    ghost var was := vm.State();
    vm.regs := vm.regs[STACK_REG := STACK_BASE];
    ghost var before := vm.State();
    PointerAside(was, before);
    SavedAside(before, F.DICT_PATH, c.encodeDict(dict));
    F.Save(vm.vfs, F.DICT_PATH, c.encodeDict(dict));
    F.LoadAfterSave(before.fs, F.DICT_PATH, c.encodeDict(dict));
    FsAside(before, vm.State().fs);
    assert vm.State() == before.(fs := vm.State().fs);
    AsideChain(was, before, vm.State());
    ghost var saved := vm.State();
    SaveRuntime(c, vm, Fresh(tokens), dict);
    AsideChain(was, saved, vm.State());
  }

  lemma PointerAside(a: Machine.VM, b: Machine.VM)
    requires |a.regs| == Machine.REGISTERS && b == a.(regs := a.regs[STACK_REG := STACK_BASE])
    ensures Aside(a, b)
  {
  }

  function Fresh(tokens: seq<string>): Runtime { Runtime(tokens, 0, [], [], [map[]], [], false) }
}
