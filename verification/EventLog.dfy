/** The instruction set (aeon-vm/src/inst.rs) and the hash-chained event log (aeon-vm/src/eventlog.rs). */
module Inst {
  import opened Words

  datatype Inst =
    | LoadImm(dst: u8, val: u64)
    | Mov(dst: u8, src: u8)
    | Add(dst: u8, a: u8, b: u8)
    | Sub(dst: u8, a: u8, b: u8)
    | Mul(dst: u8, a: u8, b: u8)
    | Jz(cond: u8, off: isize)
    | Jump(offset: isize)
    | Call(target: usize)
    | Ret
    | Print(r: u8)
    | LoadMem(dst: u8, addr: u8)
    | StoreMem(addr: u8, src: u8)
    | Alloc(dst: u8, size: u8)
    | Halt
    | Syscall(num: u8)

  /** A `Vec` never holds more than `isize::MAX` elements. */
  type Program = p: seq<Inst> | |p| < TWO63

  /** The hash of the instructions, kept as the term that was hashed. */
  datatype ProgramId = IdOf(instructions: Program)
}

module EventLog {
  import opened Words
  import opened Inst

  datatype Event =
    | Checkpoint(programId: ProgramId, pc: usize, steps: nat)
    | VMMigrated(programId: ProgramId, source: string, dest: string, steps: nat)
    | PatchApplied(contextId: string, author: string, description: string, patchCount: nat)
    | DaemonRestart(vmId: string)

  /** A digest is the zero array or the term it is the hash of, so distinct terms never collide. */
  datatype Digest = ZeroDigest | HashOf(event: Event, timestampMs: u64, prev: Digest)

  datatype LogEntry = LogEntry(event: Event, timestampMs: u64, prevHash: Digest, selfHash: Digest)

  type Log = seq<LogEntry>

  datatype LogError = PrevMismatch(index: nat) | SelfMismatch(index: nat)

  datatype ExtendError = DoesNotExtend | WrongSelfHash

  function HashEntry(event: Event, timestampMs: u64, prev: Digest): Digest {
    HashOf(event, timestampMs, prev)
  }

  /** The hash the next entry has to name. */
  function Tip(log: Log): Digest {
    if log == [] then ZeroDigest else log[|log| - 1].selfHash
  }

  function Append(log: Log, event: Event, timestampMs: u64): Log {
    log + [LogEntry(event, timestampMs, Tip(log), HashEntry(event, timestampMs, Tip(log)))]
  }

  predicate SelfHashOk(e: LogEntry) { e.selfHash == HashEntry(e.event, e.timestampMs, e.prevHash) }

  /** Each entry names its predecessor's hash and carries its own. */
  ghost predicate Verified(log: Log) {
    forall i :: 0 <= i < |log| ==> log[i].prevHash == Tip(log[..i]) && SelfHashOk(log[i])
  }

  /** Entries are accepted one by one; the first that does not fit stops the loop, those before it stay. */
  function Extend(log: Log, entries: seq<LogEntry>): (r: (Log, Result<(), ExtendError>))
    ensures log <= r.0
    decreases |entries|
  {
    if entries == [] then (log, Ok(()))
    else if entries[0].prevHash != Tip(log) then (log, Err(DoesNotExtend))
    else if !SelfHashOk(entries[0]) then (log, Err(WrongSelfHash))
    else Extend(log + [entries[0]], entries[1..])
  }

  lemma AppendVerified(log: Log, event: Event, timestampMs: u64)
    requires Verified(log)
    ensures Verified(Append(log, event, timestampMs))
  {
    var r := Append(log, event, timestampMs);
    forall i | 0 <= i < |r|
      ensures r[i].prevHash == Tip(r[..i]) && SelfHashOk(r[i])
    {
      if i < |log| {
        assert r[i] == log[i] && r[..i] == log[..i];
      } else {
        assert r[..i] == log;
      }
    }
  }

  /** The new entry holds the event and the time it was given, behind everything that was there. */
  lemma AppendStores(log: Log, event: Event, timestampMs: u64)
    ensures var r := Append(log, event, timestampMs);
            && |r| == |log| + 1 && r[..|log|] == log
            && r[|log|].event == event && r[|log|].timestampMs == timestampMs
            && r[|log|].prevHash == (if log == [] then ZeroDigest else log[|log| - 1].selfHash)
            && r[|log|].selfHash == HashOf(event, timestampMs, r[|log|].prevHash)
  {
  }

  /** Entry `i` fits behind the entries offered before it. */
  ghost predicate FitsBehind(log: Log, entries: seq<LogEntry>, i: nat)
    requires i < |entries|
  {
    var e := entries[i];
    && e.prevHash == (if i > 0 then entries[i - 1].selfHash else if log == [] then ZeroDigest else log[|log| - 1].selfHash)
    && e.selfHash == HashOf(e.event, e.timestampMs, e.prevHash)
  }

  /** Extending takes the entries up to the first that does not fit, and says which of its two hashes is wrong. */
  lemma {:induction false} ExtendTakes(log: Log, entries: seq<LogEntry>, n: nat)
    requires n <= |entries| && forall i :: 0 <= i < n ==> FitsBehind(log, entries, i)
    requires n < |entries| ==> !FitsBehind(log, entries, n)
    ensures Extend(log, entries).0 == log + entries[..n]
    ensures Extend(log, entries).1.Ok? <==> n == |entries|
    ensures n < |entries| ==>
              (Extend(log, entries).1 == Err(WrongSelfHash)
               <==> entries[n].prevHash == if n > 0 then entries[n - 1].selfHash else if log == [] then ZeroDigest else log[|log| - 1].selfHash)
    decreases n
  {
    if n == 0 {
      assert log + entries[..0] == log;
    } else {
      assert FitsBehind(log, entries, 0);
      var next := log + [entries[0]];
      forall i | 0 <= i < n - 1 ensures FitsBehind(next, entries[1..], i) {
        assert FitsBehind(log, entries, i + 1);
      }
      if n < |entries| { assert FitsBehind(next, entries[1..], n - 1) == FitsBehind(log, entries, n); }
      ExtendTakes(next, entries[1..], n - 1);
      assert next + entries[1..][..n - 1] == log + entries[..n];
    }
  }

  lemma ExtendOne(log: Log, e: LogEntry)
    requires Verified(log) && e.prevHash == Tip(log) && SelfHashOk(e)
    ensures Verified(log + [e])
  {
    AppendVerified(log, e.event, e.timestampMs);
    assert log + [e] == Append(log, e.event, e.timestampMs);
  }

  /** Whatever is offered, extending a verified log leaves it verified. */
  lemma {:induction false} ExtendVerified(log: Log, entries: seq<LogEntry>)
    requires Verified(log)
    ensures Verified(Extend(log, entries).0)
    decreases |entries|
  {
    if entries != [] && entries[0].prevHash == Tip(log) && SelfHashOk(entries[0]) {
      ExtendOne(log, entries[0]);
      ExtendVerified(log + [entries[0]], entries[1..]);
    }
  }

  function Depth(d: Digest): nat {
    match d case ZeroDigest => 0 case HashOf(_, _, prev) => Depth(prev) + 1
  }

  /** Entry `i` of a verified chain hashes a term of depth `i + 1`: hashes along a chain are distinct. */
  lemma {:induction false} ChainDepth(log: Log, i: nat)
    requires Verified(log) && i < |log|
    ensures Depth(log[i].selfHash) == i + 1
  {
    assert log[i].prevHash == Tip(log[..i]) && SelfHashOk(log[i]);
    if i > 0 {
      ChainDepth(log, i - 1);
      assert log[..i][i - 1] == log[i - 1];
    }
  }

  /** A verified log is determined by its last hash. */
  lemma {:induction false} TipDetermines(a: Log, b: Log)
    requires Verified(a) && Verified(b) && Tip(a) == Tip(b)
    ensures a == b
    decreases |a|
  {
    if a != [] { ChainDepth(a, |a| - 1); }
    if b != [] { ChainDepth(b, |b| - 1); }
    if a != [] {
      var n := |a| - 1;
      assert |b| == |a|;
      assert Verified(a[..n]) by { VerifiedPrefix(a, n); }
      assert Verified(b[..n]) by { VerifiedPrefix(b, n); }
      assert a[n].prevHash == Tip(a[..n]) && SelfHashOk(a[n]);
      assert b[n].prevHash == Tip(b[..n]) && SelfHashOk(b[n]);
      TipDetermines(a[..n], b[..n]);
      assert a == a[..n] + [a[n]] && b == b[..n] + [b[n]];
    }
  }

  lemma VerifiedPrefix(log: Log, n: nat)
    requires Verified(log) && n <= |log|
    ensures Verified(log[..n])
  {
    forall i | 0 <= i < n
      ensures log[..n][i].prevHash == Tip(log[..n][..i]) && SelfHashOk(log[..n][i])
    {
      assert log[..n][..i] == log[..i];
    }
  }

  class EventLog {
    var entries: Log

    constructor (log: Log)
      ensures entries == log
    {
      entries := log;
    }

    method AppendAt(event: Event, timestampMs: u64) returns (selfHash: Digest)
      modifies this
      ensures entries == Append(old(entries), event, timestampMs) && selfHash == Tip(entries)
    {
      var prevHash := if entries == [] then ZeroDigest else entries[|entries| - 1].selfHash;
      selfHash := HashEntry(event, timestampMs, prevHash);
      entries := entries + [LogEntry(event, timestampMs, prevHash, selfHash)];
    }

    method ExtendFrom(more: seq<LogEntry>) returns (r: Result<(), ExtendError>)
      modifies this
      ensures (entries, r) == Extend(old(entries), more)
    {
      var i := 0;
      while i < |more|
        invariant 0 <= i <= |more|
        invariant Extend(entries, more[i..]) == Extend(old(entries), more)
      {
        var entry := more[i];
        assert more[i..][1..] == more[i + 1..];
        if entry.prevHash != Tip(entries) {
          return Err(DoesNotExtend);
        }
        if HashEntry(entry.event, entry.timestampMs, entry.prevHash) != entry.selfHash {
          return Err(WrongSelfHash);
        }
        entries := entries + [entry];
        i := i + 1;
      }
      r := Ok(());
    }

    method Verify() returns (r: Result<(), LogError>)
      ensures r.Ok? <==> Verified(entries)
      ensures r.Err? ==> r.error.index < |entries| && Verified(entries[..r.error.index])
      ensures r.Err? && r.error.PrevMismatch? ==> entries[r.error.index].prevHash != Tip(entries[..r.error.index])
      ensures r.Err? && r.error.SelfMismatch? ==> !SelfHashOk(entries[r.error.index])
    {
      var prevHash := ZeroDigest;
      var index := 0;
      while index < |entries|
        invariant 0 <= index <= |entries|
        invariant prevHash == Tip(entries[..index])
        invariant Verified(entries[..index])
      {
        var entry := entries[index];
        if entry.prevHash != prevHash {
          return Err(PrevMismatch(index));
        }
        if entry.selfHash != HashEntry(entry.event, entry.timestampMs, entry.prevHash) {
          return Err(SelfMismatch(index));
        }
        ExtendOne(entries[..index], entry);
        assert entries[..index] + [entry] == entries[..index + 1];
        prevHash := entry.selfHash;
        index := index + 1;
      }
      assert entries[..index] == entries;
      r := Ok(());
    }
  }
}
