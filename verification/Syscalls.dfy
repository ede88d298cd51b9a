/** What the four system calls do, seen on one step of the machine (aeon-vm/src/vm.rs). */
module Syscalls {
  import opened Words
  import opened Inst
  import opened CowHeap
  import opened Machine
  import Vfs

  /** The step at `pc` is system call `num`. */
  predicate Calls(p: Program, vm: VM, num: u8) { vm.pc < |p| && p[vm.pc] == Syscall(num) }

  /** The range lies in the heap. */
  predicate InHeap(vm: VM, at: nat, len: nat) { at + len <= |vm.heap.bytes| }

  /** The address a range that leaves the heap is reported with. */
  function Fault(vm: VM, at: nat, len: nat): StepResult {
    Error(MemoryOutOfBounds(if at + len >= TWO64 then at else at + len, |vm.heap.bytes|))
  }

  predicate Opened(fs: Vfs.Fs, fd: nat) { fd < |fs.fds| && fs.fds[fd].Some? }

  /** The step went on: `r0` holds the answer, one step was counted, and nothing but files and heap bytes changed besides. */
  ghost predicate Answered(vm: VM, next: VM, answer: nat) {
    && |vm.regs| == REGISTERS && |next.heap.bytes| == |vm.heap.bytes| && answer < TWO64
    && next == vm.(regs := vm.regs[0 := answer], pc := (vm.pc + 1) % TWO64, steps := vm.steps + 1, heap := next.heap, fs := next.fs)
  }

  lemma OpenAnswers(p: Program, vm: VM)
    requires WellFormed(vm) && Calls(p, vm, 0) && |vm.fs.fds| + 1 < TWO64
    ensures var at, len, writable := vm.regs[1], vm.regs[2], vm.regs[3] != 0;
            var (next, r) := Step(p, vm);
            if !InHeap(vm, at, len) then next == vm && r == Fault(vm, at, len)
            else
              var path := vm.heap.bytes[at..at + len];
              if !IsUtf8(path) then next == vm && r == Error(InvalidUtf8)
              else if !writable && path !in vm.fs.files then next == vm && r == Error(FsFailed(Vfs.FileNotFound(path)))
              else
                var fd := next.regs[0];
                var file := Some(Vfs.OpenFile(path, 0, writable));
                && r == Continue && Answered(vm, next, fd) && next.heap == vm.heap
                // the lowest free descriptor, or a new one
                && fd <= |vm.fs.fds| && (fd < |vm.fs.fds| ==> vm.fs.fds[fd].None?)
                && (forall k :: 0 <= k < fd ==> vm.fs.fds[k].Some?)
                && next.fs.fds == (if fd < |vm.fs.fds| then vm.fs.fds[fd := file] else vm.fs.fds + [file])
                // a file that was not there is there now, and empty
                && next.fs.files == (if path in vm.fs.files then vm.fs.files else vm.fs.files[path := []])
  {
    hide IsUtf8, Vfs.WellFormed;
    if InHeap(vm, vm.regs[1], vm.regs[2]) {
      var path := vm.heap.bytes[vm.regs[1]..vm.regs[1] + vm.regs[2]];
      assert CheckedRange(vm.heap, vm.regs[1], vm.regs[2]) == Ok(path);
    }
  }

  lemma ReadAnswers(p: Program, vm: VM)
    requires WellFormed(vm) && Calls(p, vm, 1)
    ensures var fd, at, count := vm.regs[1], vm.regs[2], vm.regs[3];
            var (next, r) := Step(p, vm);
            if !InHeap(vm, at, count) then next == vm && r == Fault(vm, at, count)
            else if !Opened(vm.fs, fd) then next == vm && r == Error(FsFailed(Vfs.BadFd(fd)))
            else
              var open := vm.fs.fds[fd].value;
              && open.path in vm.fs.files && open.cursor <= |vm.fs.files[open.path]|
              && var file, c := vm.fs.files[open.path], open.cursor;
                 var n := if |file| - c < count then |file| - c else count;
                 && r == Continue && Answered(vm, next, n)
                 && next.heap.bytes[at..at + n] == file[c..c + n]
                 && (forall i :: 0 <= i < |vm.heap.bytes| && !(at <= i < at + n) ==> next.heap.bytes[i] == vm.heap.bytes[i])
                 && next.fs == vm.fs.(fds := vm.fs.fds[fd := Some(Vfs.OpenFile(open.path, c + n, open.writable))])
  {
    hide Touched, IsUtf8;
    if InHeap(vm, vm.regs[2], vm.regs[3]) && Opened(vm.fs, vm.regs[1]) {
      assert Vfs.DescriptorOk(vm.fs.files, vm.fs.fds[vm.regs[1]].value);
    }
  }

  /** `file` with `data` put at `at`; what lies behind stays. */
  function Put(file: seq<u8>, at: nat, data: seq<u8>): seq<u8>
    requires at <= |file|
  {
    file[..at] + data + if at + |data| < |file| then file[at + |data|..] else []
  }

  lemma WriteAnswers(p: Program, vm: VM)
    requires WellFormed(vm) && Calls(p, vm, 2)
    ensures var fd, at, count := vm.regs[1], vm.regs[2], vm.regs[3];
            var (next, r) := Step(p, vm);
            if !InHeap(vm, at, count) then next == vm && r == Fault(vm, at, count)
            else if !Opened(vm.fs, fd) then next == vm && r == Error(FsFailed(Vfs.BadFd(fd)))
            else
              var open := vm.fs.fds[fd].value;
              if !open.writable then next == vm && r == Error(FsFailed(Vfs.NotWritable(fd)))
              else
                && open.path in vm.fs.files && open.cursor <= |vm.fs.files[open.path]|
                && r == Continue && Answered(vm, next, count) && next.heap == vm.heap
                && next.fs == Vfs.Fs(
                     vm.fs.files[open.path := Put(vm.fs.files[open.path], open.cursor, vm.heap.bytes[at..at + count])],
                     vm.fs.fds[fd := Some(Vfs.OpenFile(open.path, open.cursor + count, true))])
  {
    hide Vfs.Overwrite, Put, IsUtf8, Touched;
    var fd, at, count := vm.regs[1], vm.regs[2], vm.regs[3];
    if InHeap(vm, at, count) && Opened(vm.fs, fd) {
      var open := vm.fs.fds[fd].value;
      assert Vfs.DescriptorOk(vm.fs.files, open);
      OverwriteIsPut(vm.fs.files[open.path], open.cursor, vm.heap.bytes[at..at + count]);
    }
  }

  lemma OverwriteIsPut(file: seq<u8>, at: nat, data: seq<u8>)
    requires at <= |file|
    ensures Vfs.Overwrite(file, at, data) == Put(file, at, data)
  {
  }

  lemma CloseAnswers(p: Program, vm: VM)
    requires WellFormed(vm) && Calls(p, vm, 3)
    ensures var fd := vm.regs[1];
            var (next, r) := Step(p, vm);
            if !Opened(vm.fs, fd) then next == vm && r == Error(FsFailed(Vfs.BadFd(fd)))
            else r == Continue && Answered(vm, next, 0) && next.heap == vm.heap
                 && next.fs == vm.fs.(fds := vm.fs.fds[fd := None])
  {
  }

  lemma OtherCallsFail(p: Program, vm: VM, num: u8)
    requires WellFormed(vm) && Calls(p, vm, num) && num > 3
    ensures Step(p, vm) == (vm, Error(UnknownSyscall(num)))
  {
  }

  // ----- calls in a row -----

  /** Make call `num` with the given arguments. */
  ghost function Do(vm: VM, num: u8, a: u64, b: u64, c: u64): (r: (VM, StepResult))
    requires WellFormed(vm)
    ensures WellFormed(r.0)
  {
    var start := Ready(vm, a, b, c);
    StepKeeps([Syscall(num)], start);
    Step([Syscall(num)], start)
  }

  ghost function Ready(vm: VM, a: u64, b: u64, c: u64): (r: VM)
    requires WellFormed(vm)
    ensures WellFormed(r)
  {
    vm.(pc := 0, regs := vm.regs[1 := a][2 := b][3 := c])
  }

  /** Heap ranges to be written one after the other. */
  datatype Range = Range(at: u64, len: u64)

  predicate Fits(bytes: seq<u8>, r: Range) { r.at + r.len <= |bytes| }

  function Gathered(bytes: seq<u8>, ranges: seq<Range>): seq<u8>
    requires forall k :: 0 <= k < |ranges| ==> Fits(bytes, ranges[k])
    decreases |ranges|
  {
    if ranges == [] then []
    else
      assert Fits(bytes, ranges[0]);
      bytes[ranges[0].at..ranges[0].at + ranges[0].len] + Gathered(bytes, ranges[1..])
  }

  /** Write all ranges through `fd`; the flag says whether every call was answered. */
  ghost function Writes(vm: VM, fd: u64, ranges: seq<Range>): (r: (VM, bool))
    requires WellFormed(vm)
    ensures WellFormed(r.0)
    decreases |ranges|
  {
    if ranges == [] then (vm, true)
    else
      var (next, s) := Do(vm, 2, fd, ranges[0].at, ranges[0].len);
      if s != Continue then (next, false) else Writes(next, fd, ranges[1..])
  }

  lemma PutTwice(file: seq<u8>, done: seq<u8>, more: seq<u8>)
    ensures Put(Put(file, 0, done), |done|, more) == Put(file, 0, done + more)
  {
  }

  /** Each write goes on where the one before it ended. */
  lemma {:induction false} WritesPut(vm: VM, fd: u64, ranges: seq<Range>, path: Vfs.Path, was: seq<u8>, done: seq<u8>)
    requires WellFormed(vm) && forall k :: 0 <= k < |ranges| ==> Fits(vm.heap.bytes, ranges[k])
    requires Opened(vm.fs, fd) && vm.fs.fds[fd].value == Vfs.OpenFile(path, |done|, true)
    requires path in vm.fs.files && vm.fs.files[path] == Put(was, 0, done)
    ensures var total := done + Gathered(vm.heap.bytes, ranges);
            var (next, ok) := Writes(vm, fd, ranges);
            && ok && next.heap == vm.heap
            && next.fs == Vfs.Fs(vm.fs.files[path := Put(was, 0, total)],
                                 vm.fs.fds[fd := Some(Vfs.OpenFile(path, |total|, true))])
    decreases |ranges|
  {
    hide Step, WellFormed, Put;
    if ranges == [] {
      assert done + [] == done;
      assert vm.fs.files[path := Put(was, 0, done)] == vm.fs.files;
      assert vm.fs.fds[fd := Some(Vfs.OpenFile(path, |done|, true))] == vm.fs.fds;
    } else {
      var data := vm.heap.bytes[ranges[0].at..ranges[0].at + ranges[0].len];
      assert Fits(vm.heap.bytes, ranges[0]);
      DoWrite(vm, fd, ranges[0]);
      PutTwice(was, done, data);
      var next := Do(vm, 2, fd, ranges[0].at, ranges[0].len).0;
      assert forall k :: 0 <= k < |ranges| - 1 ==> ranges[1..][k] == ranges[k + 1];
      WritesPut(next, fd, ranges[1..], path, was, done + data);
      assert done + data + Gathered(vm.heap.bytes, ranges[1..]) == done + Gathered(vm.heap.bytes, ranges);
    }
  }

  lemma DoWrite(vm: VM, fd: u64, range: Range)
    requires WellFormed(vm) && Fits(vm.heap.bytes, range) && Opened(vm.fs, fd) && vm.fs.fds[fd].value.writable
    ensures var open := vm.fs.fds[fd].value;
            var (next, s) := Do(vm, 2, fd, range.at, range.len);
            && open.path in vm.fs.files && open.cursor <= |vm.fs.files[open.path]|
            && s == Continue && next.heap == vm.heap
            && next.fs == Vfs.Fs(
                 vm.fs.files[open.path := Put(vm.fs.files[open.path], open.cursor, vm.heap.bytes[range.at..range.at + range.len])],
                 vm.fs.fds[fd := Some(Vfs.OpenFile(open.path, open.cursor + range.len, true))])
  {
    hide Step, Put;
    WriteAnswers([Syscall(2)], Ready(vm, fd, range.at, range.len));
  }

  lemma DoOpen(vm: VM, at: u64, len: u64, writable: u64)
    requires WellFormed(vm) && at + len <= |vm.heap.bytes| && |vm.fs.fds| + 1 < TWO64
    requires var path := vm.heap.bytes[at..at + len]; IsUtf8(path) && (writable != 0 || path in vm.fs.files)
    ensures var path := vm.heap.bytes[at..at + len];
            var (next, s) := Do(vm, 0, at, len, writable);
            && s == Continue && next.heap == vm.heap && |next.regs| == REGISTERS
            && var fd := next.regs[0];
               && fd <= |vm.fs.fds| && |next.fs.fds| <= |vm.fs.fds| + 1
               && (fd < |vm.fs.fds| ==> vm.fs.fds[fd].None? && |next.fs.fds| == |vm.fs.fds|)
               && Opened(next.fs, fd) && next.fs.fds[fd].value == Vfs.OpenFile(path, 0, writable != 0)
               && next.fs.files == (if path in vm.fs.files then vm.fs.files else vm.fs.files[path := []])
  {
    hide Step, IsUtf8;
    OpenAnswers([Syscall(0)], Ready(vm, at, len, writable));
  }

  lemma DoClose(vm: VM, fd: u64)
    requires WellFormed(vm) && Opened(vm.fs, fd)
    ensures var (next, s) := Do(vm, 3, fd, 0, 0);
            s == Continue && next.heap == vm.heap && next.fs == vm.fs.(fds := vm.fs.fds[fd := None])
  {
    hide Step;
    CloseAnswers([Syscall(3)], Ready(vm, fd, 0, 0));
  }

  lemma DoRead(vm: VM, fd: u64, at: u64, count: u64)
    requires WellFormed(vm) && at + count <= |vm.heap.bytes| && Opened(vm.fs, fd) && vm.fs.fds[fd].value.cursor == 0
    ensures var path := vm.fs.fds[fd].value.path;
            var (next, s) := Do(vm, 1, fd, at, count);
            && path in vm.fs.files && s == Continue && |next.regs| == REGISTERS && |next.heap.bytes| == |vm.heap.bytes|
            && var file := vm.fs.files[path];
               var n := if |file| < count then |file| else count;
               && next.regs[0] == n && next.heap.bytes[at..at + n] == file[..n] && next.fs.files == vm.fs.files
               && (forall i :: 0 <= i < |vm.heap.bytes| && !(at <= i < at + n) ==> next.heap.bytes[i] == vm.heap.bytes[i])
  {
    hide Step;
    ReadAnswers([Syscall(1)], Ready(vm, fd, at, count));
  }

  /** Open for writing, write every range, close, open again, read: five calls and as many writes as there are ranges. */
  ghost function RoundTrip(vm: VM, pathAt: u64, pathLen: u64, ranges: seq<Range>, buffer: u64, room: u64): (VM, bool)
    requires WellFormed(vm)
  {
    var (v1, s1) := Do(vm, 0, pathAt, pathLen, 1);
    if |v1.regs| != REGISTERS then (v1, false)
    else
      var (v2, s2) := Writes(v1, v1.regs[0], ranges);
      var (v3, s3) := Do(v2, 3, v1.regs[0], 0, 0);
      var (v4, s4) := Do(v3, 0, pathAt, pathLen, 0);
      if |v4.regs| != REGISTERS then (v4, false)
      else
        var (v5, s5) := Do(v4, 1, v4.regs[0], buffer, room);
        (v5, s1 == Continue && s2 && s3 == Continue && s4 == Continue && s5 == Continue)
  }

  /** All calls are answered, and the buffer then starts with the written bytes, in order; an older and longer file shows
      behind them. Nothing else in the heap changes. */
  lemma WriteThenReadBack(vm: VM, pathAt: u64, pathLen: u64, ranges: seq<Range>, buffer: u64, room: u64)
    requires WellFormed(vm) && |vm.fs.fds| + 2 < TWO64
    requires pathAt + pathLen <= |vm.heap.bytes| && IsUtf8(vm.heap.bytes[pathAt..pathAt + pathLen])
    requires buffer + room <= |vm.heap.bytes| && forall k :: 0 <= k < |ranges| ==> Fits(vm.heap.bytes, ranges[k])
    ensures var path := vm.heap.bytes[pathAt..pathAt + pathLen];
            var was := if path in vm.fs.files then vm.fs.files[path] else [];
            var file := Put(was, 0, Gathered(vm.heap.bytes, ranges));
            var n := if |file| < room then |file| else room;
            var (end, ok) := RoundTrip(vm, pathAt, pathLen, ranges, buffer, room);
            && ok && |end.regs| == REGISTERS && end.regs[0] == n && |end.heap.bytes| == |vm.heap.bytes|
            && end.heap.bytes[buffer..buffer + n] == file[..n]
            && (forall i :: 0 <= i < |vm.heap.bytes| && !(buffer <= i < buffer + n) ==> end.heap.bytes[i] == vm.heap.bytes[i])
            && end.fs.files == vm.fs.files[path := file]
  {
    hide Do, Step, WellFormed, Put, IsUtf8, Gathered, Writes, Fits;
    var path := vm.heap.bytes[pathAt..pathAt + pathLen];
    var was := if path in vm.fs.files then vm.fs.files[path] else [];
    DoOpen(vm, pathAt, pathLen, 1);
    var v1 := Do(vm, 0, pathAt, pathLen, 1).0;
    var fd := v1.regs[0];
    PutNothing(was);
    WritesPut(v1, fd, ranges, path, was, []);
    assert [] + Gathered(vm.heap.bytes, ranges) == Gathered(vm.heap.bytes, ranges);
    var v2 := Writes(v1, fd, ranges).0;
    DoClose(v2, fd);
    var v3 := Do(v2, 3, fd, 0, 0).0;
    DoOpen(v3, pathAt, pathLen, 0);
    var v4 := Do(v3, 0, pathAt, pathLen, 0).0;
    DoRead(v4, v4.regs[0], buffer, room);
  }

  lemma PutNothing(file: seq<u8>)
    ensures Put(file, 0, []) == file
  {
  }
}
