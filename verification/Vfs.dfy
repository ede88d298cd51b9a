/** The in-memory file system behind the four syscalls (aeon-vm/src/vfs.rs). */
module Vfs {
  import opened Words

  /** A path is the byte string of a Rust `String`. */
  type Path = seq<u8>

  datatype OpenFile = OpenFile(path: Path, cursor: nat, writable: bool)

  datatype FsError = FileNotFound(path: Path) | BadFd(fd: nat) | NotWritable(fd: nat)

  datatype Fs = Fs(files: map<Path, seq<u8>>, fds: seq<Option<OpenFile>>)

  predicate IsOpen(fs: Fs, fd: nat) { fd < |fs.fds| && fs.fds[fd].Some? }

  /** Descriptors only point at existing files, and never past their end. */
  ghost predicate WellFormed(fs: Fs) {
    forall fd :: 0 <= fd < |fs.fds| && fs.fds[fd].Some? ==> DescriptorOk(fs.files, fs.fds[fd].value)
  }

  ghost predicate DescriptorOk(files: map<Path, seq<u8>>, f: OpenFile) {
    f.path in files && f.cursor <= |files[f.path]|
  }

  /** The lowest closed slot, or one past the end. */
  function FreeSlot(fds: seq<Option<OpenFile>>): (fd: nat)
    ensures fd <= |fds| && (fd < |fds| ==> fds[fd].None?)
    ensures forall k :: 0 <= k < fd ==> fds[k].Some?
  {
    if fds == [] || fds[0].None? then 0 else
      var rest := FreeSlot(fds[1..]);
      assert forall k :: 1 <= k < |fds| ==> fds[k] == fds[1..][k - 1];
      rest + 1
  }

  function PutFd(fds: seq<Option<OpenFile>>, fd: nat, f: Option<OpenFile>): seq<Option<OpenFile>>
    requires fd <= |fds|
  {
    if fd == |fds| then fds + [f] else fds[fd := f]
  }

  function Open(fs: Fs, path: Path, writable: bool): (Fs, Result<nat, FsError>) {
    if !writable && path !in fs.files then (fs, Err(FileNotFound(path)))
    else
      var files := if path in fs.files then fs.files else fs.files[path := []];
      var fd := FreeSlot(fs.fds);
      (Fs(files, PutFd(fs.fds, fd, Some(OpenFile(path, 0, writable)))), Ok(fd))
  }

  function Min(a: nat, b: nat): nat { if a < b then a else b }

  /** The slice a read takes starts inside its file; otherwise `read` would panic. */
  predicate ReadSafe(fs: Fs, fd: nat) {
    IsOpen(fs, fd) && fs.fds[fd].value.path in fs.files ==>
      fs.fds[fd].value.cursor <= |fs.files[fs.fds[fd].value.path]|
  }

  function Read(fs: Fs, fd: nat, n: nat): (Fs, Result<seq<u8>, FsError>)
    requires ReadSafe(fs, fd)
  {
    if !IsOpen(fs, fd) then (fs, Err(BadFd(fd)))
    else
      var f := fs.fds[fd].value;
      if f.path !in fs.files then (fs, Err(FileNotFound(f.path)))
      else
        var got := Min(|fs.files[f.path]| - f.cursor, n);
        (fs.(fds := fs.fds[fd := Some(f.(cursor := f.cursor + got))]),
         Ok(fs.files[f.path][f.cursor..f.cursor + got]))
  }

  /** `resize` (zero-filled) then `copy_from_slice`. */
  function Overwrite(file: seq<u8>, at: nat, data: seq<u8>): (r: seq<u8>)
    ensures |r| >= |file| && at + |data| <= |r|
    ensures r[at..at + |data|] == data
    ensures forall i :: 0 <= i < |file| && !(at <= i < at + |data|) ==> r[i] == file[i]
  {
    var end := at + |data|;
    var sized := if end > |file| then file + seq(end - |file|, _ => 0) else file;
    sized[..at] + data + sized[end..]
  }

  function Write(fs: Fs, fd: nat, data: seq<u8>): (Fs, Result<nat, FsError>) {
    if !IsOpen(fs, fd) then (fs, Err(BadFd(fd)))
    else
      var f := fs.fds[fd].value;
      if !f.writable then (fs, Err(NotWritable(fd)))
      else
        var file := if f.path in fs.files then fs.files[f.path] else [];
        (Fs(fs.files[f.path := Overwrite(file, f.cursor, data)],
            fs.fds[fd := Some(f.(cursor := f.cursor + |data|))]),
         Ok(|data|))
  }

  function Close(fs: Fs, fd: nat): (Fs, Result<(), FsError>) {
    if !IsOpen(fs, fd) then (fs, Err(BadFd(fd))) else (fs.(fds := fs.fds[fd := None]), Ok(()))
  }

  datatype FsOp =
    | OpOpen(path: Path, writable: bool)
    | OpRead(fd: nat, count: nat)
    | OpWrite(fd: nat, data: seq<u8>)
    | OpClose(fd: nat)

  /** One operation; `None` when its slice is out of range. */
  function Apply(fs: Fs, op: FsOp): Option<Fs> {
    match op
    case OpOpen(path, writable) => Some(Open(fs, path, writable).0)
    case OpRead(fd, count) => if ReadSafe(fs, fd) then Some(Read(fs, fd, count).0) else None
    case OpWrite(fd, data) => Some(Write(fs, fd, data).0)
    case OpClose(fd) => Some(Close(fs, fd).0)
  }

  /** No file disappears or gets shorter. */
  ghost predicate FilesGrow(a: Fs, b: Fs) {
    forall p :: p in a.files ==> p in b.files && |a.files[p]| <= |b.files[p]|
  }

  lemma OpKeepsDescriptors(fs: Fs, op: FsOp)
    requires WellFormed(fs)
    ensures Apply(fs, op).Some?
    ensures WellFormed(Apply(fs, op).value) && FilesGrow(fs, Apply(fs, op).value)
  {
    var r := Apply(fs, op).value;
    assert FilesGrow(fs, r);
    forall fd | 0 <= fd < |r.fds| && r.fds[fd].Some?
      ensures DescriptorOk(r.files, r.fds[fd].value)
    {
      if IsOpen(fs, fd) {
        assert DescriptorOk(fs.files, fs.fds[fd].value);
      }
    }
  }

  ghost function Runs(fs: Fs, ops: seq<FsOp>): Option<Fs>
    decreases |ops|
  {
    if ops == [] then Some(fs)
    else if Apply(fs, ops[0]).None? then None
    else Runs(Apply(fs, ops[0]).value, ops[1..])
  }

  /** Any run from a well-formed state, the empty one included, never takes a slice out of range and never shrinks a file. */
  lemma {:induction false} RunKeepsDescriptors(fs: Fs, ops: seq<FsOp>)
    requires WellFormed(fs)
    ensures Runs(fs, ops).Some? && WellFormed(Runs(fs, ops).value) && FilesGrow(fs, Runs(fs, ops).value)
    decreases |ops|
  {
    if ops != [] {
      OpKeepsDescriptors(fs, ops[0]);
      RunKeepsDescriptors(Apply(fs, ops[0]).value, ops[1..]);
    }
  }

  class VirtualFS {
    var files: map<Path, seq<u8>>
    var openFds: seq<Option<OpenFile>>

    function View(): Fs
      reads this
    {
      Fs(files, openFds)
    }

    constructor ()
      ensures View() == Fs(map[], []) && WellFormed(View())
    {
      files, openFds := map[], [];
    }

    constructor From(fs: Fs)
      ensures View() == fs
    {
      files, openFds := fs.files, fs.fds;
    }

    method OpenPath(path: Path, writable: bool) returns (r: Result<nat, FsError>)
      modifies this
      ensures (View(), r) == Open(old(View()), path, writable)
    {
      if writable {
        if path !in files {
          files := files[path := []];
        }
      } else if path !in files {
        return Err(FileNotFound(path));
      }
      var file := Some(OpenFile(path, 0, writable));
      var fd := 0;
      while fd < |openFds| && openFds[fd].Some?
        invariant 0 <= fd <= |openFds|
        invariant forall k :: 0 <= k < fd ==> openFds[k].Some?
      {
        fd := fd + 1;
      }
      assert fd == FreeSlot(openFds);
      if fd < |openFds| {
        openFds := openFds[fd := file];
        r := Ok(fd);
      } else {
        openFds := openFds + [file];
        r := Ok(|openFds| - 1);
      }
    }

    /** The bytes copied into the caller's buffer of size `n`; its length is the count returned. */
    method ReadFd(fd: nat, n: nat) returns (r: Result<seq<u8>, FsError>)
      requires ReadSafe(View(), fd)
      modifies this
      ensures (View(), r) == Read(old(View()), fd, n)
    {
      if fd >= |openFds| || openFds[fd].None? {
        return Err(BadFd(fd));
      }
      var open := openFds[fd].value;
      if open.path !in files {
        return Err(FileNotFound(open.path));
      }
      var file := files[open.path];
      var available := if open.cursor <= |file| then |file| - open.cursor else 0;
      var len := if available < n then available else n;
      r := Ok(file[open.cursor..open.cursor + len]);
      openFds := openFds[fd := Some(open.(cursor := open.cursor + len))];
    }

    method WriteFd(fd: nat, data: seq<u8>) returns (r: Result<nat, FsError>)
      modifies this
      ensures (View(), r) == Write(old(View()), fd, data)
    {
      if fd >= |openFds| || openFds[fd].None? {
        return Err(BadFd(fd));
      }
      var open := openFds[fd].value;
      if !open.writable {
        return Err(NotWritable(fd));
      }
      var file := if open.path in files then files[open.path] else [];
      ghost var before := file;
      var end := open.cursor + |data|;
      if end > |file| {
        file := file + seq(end - |file|, _ => 0);
      }
      file := file[..open.cursor] + data + file[end..];
      assert file == Overwrite(before, open.cursor, data);
      files := files[open.path := file];
      openFds := openFds[fd := Some(open.(cursor := end))];
      r := Ok(|data|);
    }

    method CloseFd(fd: nat) returns (r: Result<(), FsError>)
      modifies this
      ensures (View(), r) == Close(old(View()), fd)
    {
      if fd >= |openFds| || openFds[fd].None? {
        return Err(BadFd(fd));
      }
      openFds := openFds[fd := None];
      r := Ok(());
    }
  }
}
