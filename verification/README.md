# Verified model of the AEON virtual machine and its satellites

A Dafny model of AEON's core: a register machine with a paged heap, a virtual
file system and a hash-chained event log, and the fast or derived forms that
each have to agree with it. These are compiled code, snapshots and deltas,
migrations, editor patches, replicated patch logs, Bloom reconciliation,
assembled text, and a Forth interpreter that keeps all its state in the machine.
Four small cores from the agent and the sync service are modelled beside it:
the nonce window, civil dates, Base32 secrets, and the relay with its chunked
HTTP bodies.

## How it is built

Code that changes state in place is modelled twice. A class or a method with
loops follows the source step by step and is proved equal to a specification
function of the old state. The theorems are then about those functions: over
single steps, over whole runs, and over pairs of components.

| file | source | subject |
|---|---|---|
| Words, Utf8, CowHeap | cowheap.rs | machine words, little-endian bytes, UTF-8, the paged heap |
| Vfs, EventLog | vfs.rs, inst.rs, eventlog.rs | virtual files, instructions, the hash chain |
| Vm, Syscalls, Runs, Snapshot | vm.rs, snapshot.rs | the interpreter, what every instruction and system call does, memory, allocator and calls over whole runs, capture and restore, deltas, migration |
| Jit, JitProof, JitEngine | jit.rs | translation to a block graph and the proof that it computes what the interpreter computes |
| Editor, Session, SessionRuns | editor.rs, session.rs, collab_transport.rs | patches, undo, the replicated context, its convergence |
| Reconcile | p2p.rs | grow-only sets, Bloom filters, one round of anti-entropy |
| Asm, AsmProof, AsmText, AsmSource | asm.rs, inst.rs | the assembler, what labels mean, text and source round trips |
| Forth, ForthWords, ForthCalls, ForthMachine | forth.rs | the Forth interpreter as a list machine, what its words mean, and the same on heap and files |
| Nonces, CivilDate, Base32, Relay, RelayDelivery, Chunked | aeon-agent, aeon-sync | the satellites |

## Conventions

- `usize` has 64 bits, so `usize::try_from(u64)` never fails; a branch adds its
  offset modulo 2^64; a vector has fewer than 2^63 elements.
- A digest or a program id is kept as the term that was hashed. So hashing is
  injective and no digest is the zero array. The Bloom filter's bit positions
  come from an arbitrary function of digest and seed, about which nothing is
  assumed.
- The serializer of the Forth state is any codec whose decoding inverts its
  encoding. Clock readings, and the outcome of an import or of a signature
  check, are parameters.
- The compiler's output is a graph of blocks over variables. The intermediate
  representation's verifier, which runs when a function is defined, requires
  that a jump passes as many arguments as its target has parameters. The entry
  block has one parameter, the register pointer, and jumps pass none.
- `run` and compiled code are modelled for runs that stop: the callable
  methods take a ghost bound on the number of steps. The lemmas need no bound;
  they quantify over every number of steps.
- A machine is well formed when it has 256 registers, `heap_top` within a heap
  shorter than 2^63, dirty pages inside the heap, and descriptors whose path
  exists with the cursor inside the file. A new machine is; every step and
  every restore of a capture keeps it.

## What the code does not promise, and the exact condition

- A delta over its base equals the full snapshot exactly when the base carries
  its heap: `restore` reads a missing heap as 1 MiB of zeros, `apply_to` as
  empty (`Snapshots.DeltaEqualsFull`, with an input in `Snapshots.NoHeapNoDelta`).
- Undo returns the base exactly when the edits never set `heap_top` or the
  base's `heap_top` was inside its heap (`Editor.UndoExactly`, with an
  input in `Editor.StrayTopIsNotRestored`).
- A program is compiled exactly when it is supported and no branch goes to
  instruction 0. With such a branch the register loads of the entry block would
  run again; `JitEngine.BranchToEntryDiverges` gives a halting program whose
  graph would spin for ever. The empty program needs no exception.
- Disassembled text assembles back exactly when the program has no `jz`, `jump`
  or `call`: the disassembler prints offsets and `jump`, the assembler reads
  labels and `jmp` (`AsmText.ListingRoundTrip`).
- A reconciliation round completes exactly when no entry the remote lacks is a
  Bloom false positive (`Reconcile.RoundIsSound`). A filter that is not the
  remote's own can stop a round but never harm the log
  (`Reconcile.AnyTestIsSafe`).
- No envelope is ever accepted twice exactly when the nonce lifetime is at
  least two windows; 600,000 ms over 300,000 ms has nothing to spare
  (`Nonces.LifetimeExactlyTwoWindows`).
- The 32-bit date arithmetic is safe exactly from 23 June -5877641 to
  9 September 5879610 (`CivilDate.SafeDates`). The two copies of
  `days_from_civil` agree: in email_sync.rs the division by 400 follows the
  closing brace of the conditional and so applies to the whole of it.
- Keys of the shared context identify items exactly when no session writes at
  two replicas (`SessionRuns.KeysUniqueExactly`).
- The relay cursor never passes an item that was neither imported nor sent by
  this device exactly when every pushed item is past the cursor, our own, or
  already imported (`Relay.CursorNeverSkips`). An item another device captured
  early and uploads late is lost: no run hands it over
  (`RelayDelivery.LatePushIsLost`).
- Repeated pulls hand over an item exactly when no item from the cursor up to it
  fails to import (`RelayDelivery.DeliveredExactly`). The relay stores and serves
  data that does not decode, on which every import fails; one such item starves
  all items behind it (`RelayDelivery.BadItemBlocks`, with an input in
  `RelayDelivery.BadFirstItemStarves`).
- Items are handed over in order and at most once exactly when no tick imports
  some of a page and then meets an item that fails, and no restart goes back
  behind something imported (`RelayDelivery.OrderKeptExactly`, with an input in
  `RelayDelivery.HandedOverTwice`).

## Model

| member | source | states |
|---|---|---|
| CowHeap.COWHeap.constructor | aeon-vm/src/cowheap.rs:68-75 | a new heap is all zeros with nothing dirty |
| CowHeap.COWHeap.FromBytes | aeon-vm/src/cowheap.rs:77-82 | the paged heap means exactly the given bytes, for lengths that are not page multiples too, and nothing is dirty |
| CowHeap.COWHeap.Get | aeon-vm/src/cowheap.rs:92-95 | the byte of the flat array, an error exactly outside it |
| CowHeap.COWHeap.Set | aeon-vm/src/cowheap.rs:97-103 | one byte of the flat array changes and exactly its page becomes dirty; out of range changes nothing |
| CowHeap.COWHeap.Read | aeon-vm/src/cowheap.rs:105-118 | reading across any number of pages is a slice of the flat array; it fails exactly when the range leaves the heap |
| CowHeap.COWHeap.Write | aeon-vm/src/cowheap.rs:120-134 | writing across any number of pages is a slice update of the flat array and dirties exactly the pages that share a byte with the range; a failing write changes nothing |
| CowHeap.COWHeap.ToVec | aeon-vm/src/cowheap.rs:136-146 | returns the flat bytes, so `from_bytes` followed by `to_vec` is the identity |
| CowHeap.COWHeap.DirtyPages | aeon-vm/src/cowheap.rs:148-156 | lists exactly the dirty pages, ascending, each with the bytes the heap holds there |
| CowHeap.COWHeap.ClearDirty | aeon-vm/src/cowheap.rs:162-164 | forgets the dirty marks and keeps every byte |
| CowHeap.COWHeap.ApplyPages | aeon-vm/src/cowheap.rs:166-183 | puts pages in turn; at the first bad index or size it stops with what was put before it |
| CowHeap.FlatSplice | aeon-vm/src/cowheap.rs:120-134 | replacing part of one page is a slice update of the flat bytes |
| CowHeap.UpdateTwice | aeon-vm/src/cowheap.rs:120-134 | two adjacent writes are one write of the concatenation, bytes and dirty pages alike |
| CowHeap.UpdateKeepsCover | aeon-vm/src/cowheap.rs:120-134 | after any write every page outside the dirty set still holds the base bytes |
| CowHeap.DirtyListRebuilds | aeon-vm/src/cowheap.rs:148-183 | putting the dirty list of a heap over its base rebuilds the heap |
| CowHeap.PutPagesMeans | aeon-vm/src/cowheap.rs:166-183 | any list of pages: refused exactly when one lies outside the heap or has another size; else later pages win and other bytes stay |
| Utf8.Utf8Exactly | aeon-vm/src/vm.rs:249-263 | the byte test for paths accepts exactly the encodings of sequences of scalar values |
| Vfs.FreeSlot | aeon-vm/src/vfs.rs:48-58 | the lowest free descriptor, or one past the table |
| Vfs.Overwrite | aeon-vm/src/vfs.rs:77-94 | the file holds the data at the cursor, keeps every other byte and never gets shorter |
| Vfs.VirtualFS.OpenPath | aeon-vm/src/vfs.rs:35-59 | follows the specification: writable opens create, read-only opens of a missing file fail, the lowest free descriptor is used |
| Vfs.VirtualFS.ReadFd | aeon-vm/src/vfs.rs:61-75 | returns the bytes between cursor and end or buffer size, and advances the cursor by as much |
| Vfs.VirtualFS.WriteFd | aeon-vm/src/vfs.rs:77-94 | overwrites at the cursor and advances it; closed or read-only descriptors are refused |
| Vfs.VirtualFS.CloseFd | aeon-vm/src/vfs.rs:96-103 | frees the descriptor and nothing else; a second close is refused |
| Vfs.OpKeepsDescriptors | aeon-vm/src/vfs.rs:35-111 | every operation keeps each open descriptor's path existing with its cursor inside the file, so no slice is out of range, and no file shrinks |
| Vfs.RunKeepsDescriptors | aeon-vm/src/vfs.rs:35-111 | the same over all runs of operations |
| EventLog.EventLog.AppendAt | aeon-vm/src/eventlog.rs:47-61 | the new entry names the hash of the one before it and carries its own |
| EventLog.EventLog.ExtendFrom | aeon-vm/src/eventlog.rs:71-87 | accepts offered entries up to the first that does not fit, keeps those, and says which of the two checks it failed |
| EventLog.EventLog.Verify | aeon-vm/src/eventlog.rs:89-102 | Ok exactly for a verified chain; an error names the first bad entry and which of its two hashes is wrong |
| EventLog.AppendVerified | aeon-vm/src/eventlog.rs:47-61 | appending to a verified log leaves it verified |
| EventLog.AppendStores | aeon-vm/src/eventlog.rs:47-61 | the new entry holds the event and time it was given and both hashes; the rest stays |
| EventLog.ExtendTakes | aeon-vm/src/eventlog.rs:71-87 | entries up to the first that does not fit are taken, and the error says which of its hashes is wrong |
| EventLog.ExtendVerified | aeon-vm/src/eventlog.rs:71-87 | whatever a peer offers, a verified log stays verified |
| EventLog.ChainDepth | aeon-vm/src/eventlog.rs:122-125 | along a chain all hashes are distinct |
| EventLog.TipDetermines | aeon-vm/src/eventlog.rs:89-125 | two verified logs with the same last hash are the same log |
| Machine.SyscallKeeps | aeon-vm/src/vm.rs:247-305 | a successful system call keeps the invariant, the heap length, pc, call stack and log, and soundness of dirty tracking against every base |
| Machine.StepKeeps | aeon-vm/src/vm.rs:86-205 | every step keeps the invariant (`heap_top` within the heap included); a halting or failing one leaves the machine exactly as it was |
| Machine.StepKeepsCover | aeon-vm/src/vm.rs:156-168 | every instruction keeps all clean pages equal to the base |
| Machine.StepNKeepsCover | aeon-vm/src/vm.rs:207-226 | so does every run of any length |
| Machine.StepNAdds | aeon-vm/src/vm.rs:217-226 | m steps and then n steps are m + n steps |
| Machine.RunsToUnique | aeon-vm/src/vm.rs:207-215 | a run stops in one state with one answer |
| Machine.RunBoundedIsStepN | aeon-vm/src/vm.rs:217-226 | a bounded run is that many steps, and reports a halt exactly when one comes within the bound |
| Syscalls.OpenAnswers | aeon-vm/src/vm.rs:249-263 | on one step: which opens are refused and how; else the lowest free descriptor in r0, at position 0 of a file that exists, created empty if it did not |
| Syscalls.ReadAnswers | aeon-vm/src/vm.rs:264-282 | on one step: which reads are refused and how; else the file's bytes from the cursor land in the buffer, every other heap byte stays, r0 is their number and the cursor moves by it |
| Syscalls.WriteAnswers | aeon-vm/src/vm.rs:283-294 | on one step: which writes are refused and how; else the buffer is put into the file at the cursor, the rest of the file stays, r0 is the count and the cursor moves by it |
| Syscalls.CloseAnswers | aeon-vm/src/vm.rs:295-302 | on one step: a descriptor that is not open is refused; else it is free, r0 is 0 and nothing else changes |
| Syscalls.OtherCallsFail | aeon-vm/src/vm.rs:303-303 | any other call number is an error that changes nothing |
| Syscalls.WriteThenReadBack | aeon-vm/src/vm.rs:247-305 | open for writing, any number of writes, close, open, read: all are answered and the buffer starts with the written bytes in order, an older and longer file showing behind them |
| Runs.NewMeans | aeon-vm/src/vm.rs:72-84 | a new machine, field by field |
| Runs.InstructionSet | aeon-vm/src/vm.rs:86-205 | what every instruction but a system call does to registers, pc, call stack, bump pointer and step count, with wrapping and errors |
| Runs.StoreThenLoad | aeon-vm/src/vm.rs:140-168 | a byte stored is loaded back truncated to eight bits; no other byte, register or page is touched |
| Runs.TopGrows | aeon-vm/src/vm.rs:169-194 | the bump pointer never falls in any run |
| Runs.AllocationsDisjoint | aeon-vm/src/vm.rs:169-194 | in every run two allocations never overlap and both lie in the heap |
| Runs.StackBelowStays | aeon-vm/src/vm.rs:120-135 | return addresses below the lowest depth of a run never change |
| Runs.CallReturns | aeon-vm/src/vm.rs:120-135 | a call comes back to the instruction behind it with the caller's stack, whatever calls and returns the callee makes |
| Vm.VMState.constructor | aeon-vm/src/vm.rs:72-84 | the machine object starts in the specified initial state |
| Vm.VMState.CheckedHeapRange | aeon-vm/src/vm.rs:307-326 | the bytes of the range, or the error with the address the source reports |
| Vm.VMState.OpenCall | aeon-vm/src/vm.rs:249-263 | open: path from the heap, UTF-8 check, descriptor in r0; a failure changes nothing |
| Vm.VMState.ReadCall | aeon-vm/src/vm.rs:264-282 | read: file bytes land in the heap, the count in r0; a failure changes nothing |
| Vm.VMState.WriteCall | aeon-vm/src/vm.rs:283-294 | write: heap bytes land in the file, the count in r0; a failure changes nothing |
| Vm.VMState.CloseCall | aeon-vm/src/vm.rs:295-302 | close: the descriptor is freed and r0 is 0; a failure changes nothing |
| Vm.VMState.HandleSyscall | aeon-vm/src/vm.rs:247-305 | each call number reaches the specified state or fails with the state unchanged |
| Vm.VMState.StepOnce | aeon-vm/src/vm.rs:86-205 | one step of the object is one step of the specification, answer and whole new state |
| Vm.VMState.Run | aeon-vm/src/vm.rs:207-215 | ends in the state where the run stops, with its step count or its error |
| Vm.VMState.RunBoundedTo | aeon-vm/src/vm.rs:217-226 | ends in the state of the bounded run, with the step count and whether it halted |
| Snapshots.CaptureSnapshot | aeon-vm/src/snapshot.rs:27-46 | the snapshot holds the whole machine, with one checkpoint entry appended to its log |
| Snapshots.CaptureHolds | aeon-vm/src/snapshot.rs:27-46 | the snapshot is the machine field by field, its log followed by a checkpoint of program, pc and steps at the given time |
| Snapshots.RestoreMachine | aeon-vm/src/snapshot.rs:87-109 | succeeds exactly when the program is known and `heap_top` is within the heap, and yields the snapshot's machine with no dirty page |
| Snapshots.RestoreMeans | aeon-vm/src/snapshot.rs:87-109 | what is refused, what a missing heap and a missing bump pointer become, and the machine that results, field by field |
| Snapshots.CaptureDelta | aeon-vm/src/snapshot.rs:156-176 | holds exactly the dirty pages and the rest of the machine |
| Snapshots.ApplyDelta | aeon-vm/src/snapshot.rs:178-205 | puts the pages over the base, with each error case in the source's order |
| Snapshots.ApplyToMeans | aeon-vm/src/snapshot.rs:178-205 | what is refused and in which order; else the delta's fields and, byte by byte, its pages over the base |
| Snapshots.DeltaEqualsFull | aeon-vm/src/snapshot.rs:155-205 | after any run from a restored base, delta over base equals the full snapshot if and only if the base carries its heap |
| Snapshots.NoHeapNoDelta | aeon-vm/src/snapshot.rs:178-190 | the snapshot of a new machine without its heap restores, yet every delta taken from it is refused for its heap length |
| Snapshots.RestoreCaptured | aeon-vm/src/snapshot.rs:27-109 | restoring a capture of a well-formed machine never fails and looks the same |
| Snapshots.StepObserved | aeon-vm/src/vm.rs:86-205 | dirty marks and the event log never influence a step |
| Snapshots.RunObserved | aeon-vm/src/vm.rs:207-226 | machines that look alike stay alike and answer alike for any number of steps |
| Snapshots.MigratingRunObserved | aeon-vm/src/snapshot.rs:27-109 | a run cut by capture and restore at any list of points and clock readings reaches the same observable machine as the uninterrupted run |
| Snapshots.MigrationInvisible | aeon-vm/src/snapshot.rs:27-109 | however often it is migrated, a run stops if and only if the uninterrupted one does, with the same answer, registers, pc, steps, call stack, heap bytes and files |
| BlockGraph.ExecAppend | aeon-vm/src/jit.rs:203-300 | running code in two pieces is running it whole |
| Jit.SupportedMeans | aeon-vm/src/jit.rs:162-186 | a program is supported exactly when every instruction is LoadImm, Mov, Add, Sub, Mul or Halt, or a Jz or Jump whose pc + offset lies in 0..=len |
| Jit.ValidateProgram | aeon-vm/src/jit.rs:162-186 | Ok exactly for such programs; an error names the first other instruction, or the target of the first bad branch |
| Jit.BasicBlockLeaders | aeon-vm/src/jit.rs:306-329 | exactly 0, the length, every branch target and every instruction after a control instruction, in ascending order; an error, that of the first bad branch, exactly when a target is out of range |
| Jit.TouchedRegisters | aeon-vm/src/jit.rs:331-355 | exactly the registers some instruction names, ascending |
| Jit.EmitControl | aeon-vm/src/jit.rs:264-285 | a branch goes to the blocks its targets start; every block and variable lookup is defined |
| Jit.EmitCode | aeon-vm/src/jit.rs:229-291 | the emitted block is the translation up to its end or first control instruction |
| Jit.BuildFunction | aeon-vm/src/jit.rs:188-304 | the result has one block per leader, each the translation of its instructions, loads in the entry block, stores in the last |
| JitEngine.ControlEndsBlock | aeon-vm/src/jit.rs:306-329 | a control instruction is the last one of its block |
| JitProof.StraightRuns | aeon-vm/src/vm.rs:86-135 | interpreting a block's instructions is that many machine steps, none of which stops |
| JitProof.TranslateHolds | aeon-vm/src/jit.rs:233-263 | an emitted statement changes the variables the way the instruction changes the registers, wrapping included |
| JitProof.CodeSimulates | aeon-vm/src/jit.rs:229-291 | the code of a block simulates its instructions and picks the same successor |
| JitProof.PrologueHolds | aeon-vm/src/jit.rs:203-217 | after the loads variables and memory together represent the register file |
| JitProof.EpilogueRestores | aeon-vm/src/jit.rs:294-300 | the stores leave all 256 registers in memory |
| JitProof.InterpreterToGraph | aeon-vm/src/jit.rs:188-304 | a halting interpreter run has a returning graph run with the same registers |
| JitProof.GraphToInterpreter | aeon-vm/src/jit.rs:188-304 | a returning graph run has a halting interpreter run with the same registers |
| JitProof.CompiledMatchesInterpreter | aeon-vm/src/jit.rs:188-304 | the compiled function returns if and only if the interpreter from pc 0 halts, with the same 256 registers, looping programs and the empty one included |
| JitEngine.ArityRule | aeon-vm/src/jit.rs:188-304 | the graph passes the argument-count rule if and only if no branch goes to instruction 0 |
| JitEngine.BranchToEntryDiverges | aeon-vm/src/jit.rs:203-217 | a three-instruction program that halts in the interpreter and whose graph would never return |
| JitEngine.JitEngine.CompileProgram | aeon-vm/src/jit.rs:96-125 | succeeds exactly for supported programs without a branch to entry; what is stored is their graph |
| JitEngine.JitEngine.RunCompiled | aeon-vm/src/jit.rs:127-160 | leaves the registers of the halted interpreter run and pc at the end, steps and everything else untouched; an error, exactly away from pc 0 or for a program the compiler refuses, changes nothing; it has to halt only where it would run |
| JitEngine.JitEngine.RunHot | aeon-vm/src/jit.rs:77-94 | counts every call and changes the machine only by a complete compiled run past the threshold; an error exactly past the threshold for a supported program that cannot run here, false otherwise |
| Editor.ApplyPatchSet | aeon-vm/src/editor.rs:54-97 | applies patches in order and fails with the first error |
| Editor.PatchMeans | aeon-vm/src/editor.rs:54-97 | each kind of patch sets what it names to its new value, leaves the rest, and fails exactly outside its bounds |
| Editor.ReverseMeans | aeon-vm/src/editor.rs:99-135 | the reverse is named after the original, and reversing twice gives the patches back |
| Editor.FlipAll | aeon-vm/src/editor.rs:99-135 | reversal lists the flipped patches last first |
| Editor.AllByShape | aeon-vm/src/editor.rs:54-97 | applying keeps register count, call-stack length, heap presence and heap length, and succeeds or fails by these alone |
| Editor.SnapshotEditor.Set | aeon-vm/src/editor.rs:161-249 | each setter changes the working snapshot, records the old value, and changes nothing on error |
| Editor.EditRecords | aeon-vm/src/editor.rs:161-249 | which edits are refused; else one patch with the value before and the value asked for, which takes the working snapshot to the new one |
| Editor.SnapshotEditor.SetHeapU64 | aeon-vm/src/editor.rs:224-226 | the eight bytes written read back as the number |
| Editor.SnapshotEditor.Build | aeon-vm/src/editor.rs:251-256 | the patch set replays the whole session from its base, and its reverse undoes it if and only if no edit moved a `heap_top` that was outside its heap to begin with |
| Editor.EditReplays | aeon-vm/src/editor.rs:161-249 | a recorded patch replays its edit and its flip takes it back |
| Editor.EditsReplay | aeon-vm/src/editor.rs:54-97 | for every chain of successful setters, overlapping ranges included, the built patch set takes the base to the working snapshot |
| Editor.UndoExactly | aeon-vm/src/editor.rs:99-135 | the reversed patch set returns exactly the base if and only if the base's `heap_top` was within its heap or never set |
| Editor.StrayTopIsNotRestored | aeon-vm/src/editor.rs:83-93 | a one-byte heap with `heap_top` 5: setting it to 0 succeeds and its undo is refused |
| Session.MergeList | aeon-vm/src/session.rs:186-210 | the merge loop adds the remote items with new keys and sorts; nothing local is lost |
| Session.SharedContext.SnapshotNow | aeon-vm/src/session.rs:121-139 | replays the patches in list order over the base, logging each in the hash chain |
| Session.CurrentSnapshotHolds | aeon-vm/src/session.rs:121-139 | it exists exactly when all patches apply; apart from its log it is the base with all patch sets applied in list order, and its log is the base's followed by one entry per patch, at that patch's time, still a verified chain |
| Session.ReplayFails | aeon-vm/src/session.rs:121-139 | otherwise the error names the author of the first patch that does not apply, and why |
| Session.SharedContext.AddPatch | aeon-vm/src/session.rs:141-156 | succeeds exactly when the patch applies to the current snapshot; it is then stored under a clock above all known ones, and the current snapshot is the old one with it applied and one entry logged |
| Session.PatchedRegisterReads | aeon-vm/src/session.rs:141-156 | in particular a register set by the patch reads as set |
| Session.SharedContext.Post | aeon-vm/src/session.rs:158-167 | appends the message under a clock above all known ones |
| Session.SharedContext.MergeFrom | aeon-vm/src/session.rs:179-220 | merges patches, messages and sessions and reports how many were new; another program is refused and changes nothing |
| Session.MergeParts | aeon-vm/src/session.rs:179-220 | a merge keeps id and base and adds each new session once |
| Session.SharedContext.Join | aeon-vm/src/session.rs:169-173 | adds the session once |
| Session.SharedContext.Leave | aeon-vm/src/session.rs:175-177 | removes every occurrence of that session; all others stay, as often and in the order they were |
| Session.MaxClock | aeon-vm/src/session.rs:260-274 | an upper bound of all clocks that is attained |
| Session.NextClockIsNext | aeon-vm/src/session.rs:260-274 | the next clock is one above the greatest of patches and messages |
| Session.SortSorts | aeon-vm/src/session.rs:186-210 | sorting distinct keys gives a strictly ordered list |
| Session.MergeIsUnion | aeon-vm/src/session.rs:186-210 | merging consistent lists is set union, in strict key order |
| Session.SortedUnique | aeon-vm/src/session.rs:186-210 | a key-ordered list is determined by its elements |
| SessionRuns.OpKeeps | aeon-vm/src/session.rs:121-220 | every patch, post, send, late or repeated delivery, join or leave keeps the replicated invariant |
| SessionRuns.RunKeeps | aeon-vm/src/session.rs:121-220 | the invariant holds after every run of any number of replicas, each carrying any number of sessions, none of which writes at two replicas |
| SessionRuns.KeysIdentifyItems | aeon-vm/src/session.rs:141-167 | in every run equal (clock, author) keys mean equal items everywhere and lists stay strictly sorted |
| SessionRuns.SharedNameCollides | aeon-vm/src/session.rs:158-167 | one session posting at two replicas gives two different messages one key |
| SessionRuns.KeysUniqueExactly | aeon-vm/src/session.rs:141-167 | equal keys mean equal items in all runs if and only if no session writes at two replicas |
| SessionRuns.MergeAlgebra | aeon-vm/src/session.rs:179-220 | merging contexts of a run is commutative, associative and idempotent on patches and messages |
| SessionRuns.PatchAccepted | aeon-vm/src/session.rs:141-156 | in every context of a run a patch is accepted exactly when it fits the shape of the base |
| SessionRuns.SnapshotsNeverFail | aeon-vm/src/session.rs:121-139 | after any run every context, and every merge of two, replays without error |
| SessionRuns.SamePatchesSameSnapshot | aeon-vm/src/session.rs:121-139 | contexts with the same patches show the same snapshot, hash-chained log included |
| SessionRuns.ExchangeConverges | aeon-vm/src/collab_transport.rs:8-24 | one send, merge, reply, merge leaves both sides with the same patches, messages, snapshot and set of sessions |
| CollabTransport.Exchange | aeon-vm/src/collab_transport.rs:8-55 | what both sides hold and report after a complete exchange, and after each way it can break off |
| Reconcile.SetBitSets | aeon-vm/src/p2p.rs:65-70 | setting a bit of the byte array sets that bit and no other |
| Reconcile.EventGSet.FromLog | aeon-vm/src/p2p.rs:22-36 | exactly the hashes of the log |
| Reconcile.EventBloom.FromGSet | aeon-vm/src/p2p.rs:54-63 | exactly the bits some member of the set marks |
| Reconcile.EventBloom.Insert | aeon-vm/src/p2p.rs:65-70 | in a filter of any size and contents in which the positions of the hash exist, exactly those are set besides the ones set before |
| Reconcile.FilterGrows | aeon-vm/src/p2p.rs:54-70 | inserting into the filter of a set gives the filter of the larger set |
| Reconcile.EventBloom.MightContain | aeon-vm/src/p2p.rs:72-77 | true exactly when all positions of the hash are set, in every filter on which the lookup does not panic |
| Reconcile.NoFalseNegatives | aeon-vm/src/p2p.rs:72-77 | a member always passes its set's filter |
| Reconcile.PassesMeans | aeon-vm/src/p2p.rs:72-97 | four positions, each the hash of the digest under its own seed modulo the bit count |
| Reconcile.MaskIsShift | aeon-vm/src/p2p.rs:65-77 | bit i of a byte is 1 << i |
| Reconcile.EmptyPassesNothing | aeon-vm/src/p2p.rs:54-77 | the filter of the empty set has 8192 bits and passes nothing |
| Reconcile.MissingEvents | aeon-vm/src/p2p.rs:80-87 | offers, in order, exactly the local entries that do not pass the filter received, whatever it holds as long as no lookup panics |
| Reconcile.GapStops | aeon-vm/src/eventlog.rs:71-87 | past a gap in the chain no later entry is accepted |
| Reconcile.KnownStops | aeon-vm/src/eventlog.rs:71-87 | offered an entry it already has, the remote stops with an error and changes nothing |
| Reconcile.RoundReachesPrefix | aeon-vm/src/p2p.rs:80-87 | whatever test selects the entries offered, one round takes the remote exactly to the local prefix before the first false positive if its own hashes all pass, and changes nothing otherwise |
| Reconcile.AnyTestIsSafe | aeon-vm/src/p2p.rs:80-87 | for every filter, stale, foreign or forged, the remote stays a verified prefix of the local log; a proper prefix is completed if and only if the test tells known from unknown without a mistake |
| Reconcile.RoundIsSound | aeon-vm/src/p2p.rs:53-97 | through the filter of its own hashes the remote stays verified and a prefix, and equals the local log if and only if no entry it lacked is a false positive |
| Reconcile.EmptyRemoteCatchesUp | aeon-vm/src/p2p.rs:53-97 | an empty remote always holds the whole log after one round |
| Asm.Assemble | aeon-vm/src/asm.rs:82-143 | the two loops compute the specified labels, instructions and errors, with the line of the error |
| AsmProof.LabelsCountInstructions | aeon-vm/src/asm.rs:82-115 | a label is the number of instructions before its last definition; instruction k is the k-th code line |
| AsmProof.ResolvesEach | aeon-vm/src/asm.rs:116-143 | assembly succeeds exactly when every label resolves, and then resolves each in place |
| AsmSource.SourceAssembles | aeon-vm/src/asm.rs:82-143 | printed source of labels, comments, instructions and jz, jmp and call by name assembles to the program with each name replaced by the number of instructions before its last definition, relative for jz and jmp, absolute for call |
| AsmSource.UndefinedIsRefused | aeon-vm/src/asm.rs:320-329 | with undefined names the error names the first of them and its line |
| AsmSource.BadLineIsReported | aeon-vm/src/asm.rs:88-113 | the first line that cannot be read is reported with its number |
| AsmSource.BareWord | aeon-vm/src/asm.rs:145-260 | a word alone: ret and halt are instructions, other mnemonics lack operands, anything else is unknown |
| AsmSource.CaseDoesNotMatter | aeon-vm/src/asm.rs:145-318 | two texts that differ in the case of ASCII letters only assemble to the same program or the same error |
| AsmSource.LayoutDoesNotMatter | aeon-vm/src/asm.rs:88-97 | indentation, trailing white space and comments change nothing |
| AsmSource.TooBigIsRefused | aeon-vm/src/asm.rs:285-318 | decimal numbers beyond the bound are refused |
| AsmSource.HexLiteralReads | aeon-vm/src/asm.rs:299-310 | a hexadecimal literal reads as its value, for every u64 |
| AsmProof.AssembledSimulates | aeon-vm/src/asm.rs:116-143 | in every state the assembled program makes the step the labelled program names |
| AsmProof.StepStaysInProgram | aeon-vm/src/vm.rs:115-135 | a step of an assembled program keeps pc and all return addresses within 0..=len |
| AsmProof.AssembledRunsInside | aeon-vm/src/vm.rs:115-135 | so does every run from the initial state |
| AsmText.PrintReads | aeon-vm/src/asm.rs:285-318 | decimal parsing inverts decimal printing up to any bound |
| AsmText.RegReads | aeon-vm/src/asm.rs:285-297 | a printed register reads back, for every u8 |
| AsmText.U64Reads | aeon-vm/src/asm.rs:299-310 | a printed number reads back, for every u64 |
| AsmText.LineReads | aeon-vm/src/inst.rs:22-42 | what each printed instruction is read as, jz and call as label references, jump as unknown |
| AsmSource.Spelling | aeon-vm/src/inst.rs:22-42 | mnemonic, registers and numbers of every listed instruction |
| AsmText.ListingRoundTrip | aeon-vm/src/inst.rs:22-42 | assembling the listing returns the program if and only if it has no jz, jump or call, and never returns another program |
| ForthSpec.SkipFindsCloser | aeon-vm/src/forth.rs:397-415 | skipping stops just behind the first closer that brings the nesting to zero, and fails only when there is none |
| ForthSpec.Holder | aeon-vm/src/forth.rs:436-456 | the innermost environment that holds the name |
| ForthSpec.StepKeeps | aeon-vm/src/forth.rs:263-385 | every step, failing or not, keeps one environment per active call and the stack within its region |
| ForthSpec.RunKeeps | aeon-vm/src/forth.rs:110-125 | so does any number of steps, and true is answered only when halted |
| ForthSpec.RunsCompose | aeon-vm/src/forth.rs:110-125 | n steps and then m steps are n + m steps; a failure ends the run for good |
| ForthWords.StackEffects | aeon-vm/src/forth.rs:286-304 | with room for their results, dup, swap, over and drop have their stack effects and change nothing below |
| ForthWords.OperatorEffects | aeon-vm/src/forth.rs:280-285 | the deeper cell is the left operand; arithmetic wraps at 2^64, comparisons answer 1 or 0 |
| ForthWords.IfTakes | aeon-vm/src/forth.rs:326-331 | `if` on a cell that is not zero takes it and goes on at the next token |
| ForthWords.IfSkips | aeon-vm/src/forth.rs:326-331 | `if` on zero takes the cell and goes on just behind the matching `then`, failing exactly when there is none |
| ForthWords.DotPrints | aeon-vm/src/forth.rs:306-309 | `.` moves the top cell to the output |
| ForthWords.DepthCounts | aeon-vm/src/forth.rs:305-305 | `depth` pushes the number of cells |
| ForthWords.IndexIsPushed | aeon-vm/src/forth.rs:347-354 | `i` pushes the index of the innermost loop and fails outside one |
| ForthWords.TooFewCells | aeon-vm/src/forth.rs:417-427 | a word that finds too few cells takes those there are and fails |
| ForthWords.VarDeclares | aeon-vm/src/forth.rs:310-314 | `var` declares in the innermost environment, as 0 unless it is there |
| ForthWords.GetReads | aeon-vm/src/forth.rs:449-456 | `get` reads the innermost environment that holds the name, and fails when none does |
| ForthWords.SetWrites | aeon-vm/src/forth.rs:436-447 | `set` takes one cell and writes it where the name is held, else in the innermost environment |
| ForthWords.SetThenGet | aeon-vm/src/forth.rs:315-325 | `set x get x` gives the value back |
| ForthWords.WordIsCalled | aeon-vm/src/forth.rs:368-377 | a dictionary word runs its body from the start in an empty environment |
| ForthWords.NumberIsPushed | aeon-vm/src/forth.rs:378-380 | the decimal text of every u64 pushes it |
| ForthWords.EndReturns | aeon-vm/src/forth.rs:263-276 | behind its last token a call returns and drops its environment, and the outermost program halts |
| ForthCalls.WordReturns | aeon-vm/src/forth.rs:263-385 | however many steps and inner calls its body takes, a word comes back behind its call with the callers' frames and variables, and with their values too if no word uses `set` |
| ForthWords.CountingLoop | aeon-vm/src/forth.rs:333-367 | `limit start do i . loop` prints start up to but not including limit for all 64-bit bounds, the empty range included, in one step plus three a turn; it takes its two operands and leaves the rest of both stacks |
| ForthMachine.PushAppends | aeon-vm/src/forth.rs:466-477 | the eight bytes and the moved pointer append one cell; nothing outside the region changes |
| ForthMachine.PopRemoves | aeon-vm/src/forth.rs:479-493 | the moved pointer removes the last cell |
| ForthMachine.PushCell | aeon-vm/src/forth.rs:466-477 | refines appending to a list, overflow exactly when the region or the heap is full |
| ForthMachine.PopCell | aeon-vm/src/forth.rs:479-493 | refines removing the last element, underflow exactly when empty |
| ForthMachine.StackValues | aeon-vm/src/forth.rs:132-154 | reads the list of cells off the heap; an error exactly when the heap ends before the region |
| ForthMachine.SkipOn | aeon-vm/src/forth.rs:397-415 | the loop moves the instruction pointer as the skip of the specification does, whatever the stack holds |
| ForthMachine.StepOnce | aeon-vm/src/forth.rs:263-385 | one step on heap and runtime is one step of the list machine, result included, with heap outside the region unchanged |
| ForthMachine.RunSteps | aeon-vm/src/forth.rs:110-125 | any number of steps, a failing one included, leaves in heap and files exactly the list machine's state, and every other register, byte, file and descriptor untouched |
| ForthMachine.SaveRuntime | aeon-vm/src/forth.rs:495-506 | the runtime file then holds the runtime; stack, dictionary file and all else stay |
| ForthMachine.LoadState | aeon-vm/src/forth.rs:508-522 | returns the saved dictionary and runtime and changes neither |
| ForthMachine.Start | aeon-vm/src/forth.rs:76-93 | an empty stack, the dictionary and a fresh runtime |
| ForthFiles.Save | aeon-vm/src/forth.rs:495-506 | the file starts with the framed payload and the descriptor is closed again |
| ForthFiles.ReadRaw | aeon-vm/src/forth.rs:524-542 | the chunked loop terminates with the whole file |
| ForthFiles.Load | aeon-vm/src/forth.rs:508-522 | the decoded payload of the frame, or which of the errors applies: unreadable, no length, truncated, undecodable |
| ForthFiles.UnframedMeans | aeon-vm/src/forth.rs:508-522 | which files are too short, and the payload of the others |
| ForthFiles.LoadAfterSave | aeon-vm/src/forth.rs:495-522 | loading after saving returns the saved value, even over an older and longer file, and other saved values stay |
| CivilDate.AgreesWithCalendar | aeon-sync/src/email_imap.rs:395-406 | both copies equal the calendar counted year by year and month by month, for all years |
| CivilDate.NextDayAddsOne | aeon-sync/src/email_sync.rs:873-882 | the next day counts exactly one more across month, leap-year and century boundaries and negative years |
| CivilDate.EraIsFloor | aeon-sync/src/email_imap.rs:395-406 | the truncating division with its correction is the floor |
| CivilDate.RefusesExactly | aeon-sync/src/email_imap.rs:395-398 | months and days outside 1..=12 and 1..=31 are refused, and no others |
| CivilDate.OverflowExactly | aeon-sync/src/email_imap.rs:395-406 | no 32-bit step overflows if and only if the day count fits with room for the epoch offset |
| CivilDate.SafeDates | aeon-sync/src/email_imap.rs:395-406 | no 32-bit step overflows if and only if the date lies between 23 June -5877641 and 9 September 5879610 |
| Base32.DecodeSecret | aeon-sync/src/vault.rs:783-809 | succeeds exactly on valid characters with at least one byte, and byte k is bits 8k..8k+7 of the concatenated 5-bit values |
| Base32.LowBits | aeon-sync/src/vault.rs:783-809 | bits that fall off the unmasked 32-bit accumulator never reach the pending ones |
| Base32.TakeByte | aeon-sync/src/vault.rs:783-809 | the extracted byte is the next eight bits and the rest stays pending |
| Base32.DecodeInvertsEncode | aeon-sync/src/vault.rs:783-809 | decoding the RFC 4648 section 6 encoding of any nonempty secret, padded or not, returns it |
| Base32.OnlyLettersCount | aeon-sync/src/vault.rs:783-809 | a secret is valid exactly when, without separators and in upper case, it lies in the RFC 4648 alphabet, and its values are those of what remains |
| Base32.AnySpellingDecodes | aeon-sync/src/vault.rs:783-809 | every way to write the encoding of a secret, in either case and with any separators, decodes to it |
| Nonces.SyncState.CleanupNonces | aeon-agent/src/state.rs:100-102 | drops exactly the nonces past their lifetime |
| Nonces.SyncState.Trust | aeon-agent/src/state.rs:108-118 | a first key is stored, a later one compared |
| Nonces.SyncState.VerifyEnvelope | aeon-agent/src/engine.rs:113-130 | the verdict and the whole new state, refusals before and after the cleanup told apart |
| Nonces.AcceptedExactly | aeon-agent/src/engine.rs:113-130 | an envelope is accepted exactly when it is at most 300,000 ms old or early, genuine, signed with the signer's trusted key if there is one, and its nonce is not remembered from within 600,000 ms |
| Nonces.VerdictLeaves | aeon-agent/src/engine.rs:113-130 | which nonces and keys are held after the verdict, and that an envelope out of time or not genuine changes nothing |
| Nonces.NonceKept | aeon-agent/src/state.rs:92-102 | an accepted nonce stays remembered under its first time for its whole lifetime |
| Nonces.NoReplay | aeon-agent/src/engine.rs:113-130 | with a lifetime of two windows no (by, nonce, at) is accepted twice in any run |
| Nonces.LifetimeExactlyTwoWindows | aeon-agent/src/engine.rs:113-130 | replay freedom holds if and only if the lifetime is at least two windows |
| Nonces.EnvelopesAcceptedOnce | aeon-agent/src/engine.rs:113-130 | the constants in use suffice, and one millisecond less would not |
| Nonces.TrustIsFirstUse | aeon-agent/src/state.rs:108-118 | a stored key never changes, and nothing under another key is accepted |
| Relay.IdOrderIsTimeOrder | aeon-sync/src/relay.rs:923-927 | ids order as capture times for all u64 values, whatever follows the digits |
| Relay.RelayIdParts | aeon-sync/src/relay.rs:923-927 | an id reads back as capture time, content and device |
| Relay.Pull | aeon-sync/src/relay.rs:152-186 | the first items past the cursor in id order, the limit clamped to 1..=200 |
| RelayDelivery.PageMeans | aeon-sync/src/relay.rs:152-186 | the stored items just past the cursor, in ascending id order, none left out, as many as the limit says, at least one and at most 200 |
| Relay.RelayClient.Tick | aeon-sync/src/relay.rs:424-550 | one tick of the pull loop: nothing when the relay does not answer; imports in order, skips its own, moves the cursor only when the whole page was handled, and saves it when the file can be written |
| Relay.RelayClient.Restart | aeon-sync/src/relay.rs:424-427 | a restarted process goes on from the saved cursor |
| Relay.CursorFileRoundTrip | aeon-sync/src/relay.rs:946-958 | a cursor written to its file is read back unchanged, trimming notwithstanding |
| Relay.PageIsNext | aeon-sync/src/relay.rs:152-186 | what the new cursor has passed is exactly the page and what was passed before |
| Relay.StepMissesNothing | aeon-sync/src/relay.rs:534-550 | only an unsafe push makes the cursor pass an item that was never handed over; ticks and restarts never do |
| Relay.CursorNeverSkips | aeon-sync/src/relay.rs:534-550 | in every run of pushes, ticks and restarts, failing ones included, the cursor never passes an item neither imported nor sent by this device if and only if every pushed item is past the cursor, our own, or already imported |
| RelayDelivery.BehindIsNeverPaged | aeon-sync/src/relay.rs:152-186 | over every run an id behind the cursor is on no page, is never imported again and stays behind, restarts included when it is behind the saved cursor too |
| RelayDelivery.LatePushIsLost | aeon-sync/src/relay.rs:534-550 | an item captured early and uploaded late by another device is handed over by no run whatever |
| RelayDelivery.TickHandsOver | aeon-sync/src/relay.rs:534-550 | every tick, one with a failing import included, hands over only stored items of other devices past the cursor, in strictly ascending id order |
| RelayDelivery.TickMeans | aeon-sync/src/relay.rs:424-550 | one tick in full: what is handed over, where the cursor goes and what is saved, for an unreachable relay, a page that imports and one with a failing item |
| RelayDelivery.FailedPageRepeats | aeon-sync/src/relay.rs:534-550 | when some item of a page fails, the cursor stays and the next tick hands the whole page over again, the part before the failure a second time |
| RelayDelivery.DeliveredWhenClear | aeon-sync/src/relay.rs:424-444 | as many answered ticks as items remain hand over every item with no failing one from the cursor up to it, whatever the limits and whatever fails behind it |
| RelayDelivery.BadItemBlocks | aeon-sync/src/relay.rs:534-550 | in every run of ticks, pushes and restarts an item that never imports and is never replaced keeps everything from it on from being handed over, and the cursor in front of it |
| RelayDelivery.DeliveredExactly | aeon-sync/src/relay.rs:534-550 | with the same imports failing in every tick, as many answered ticks as items remain hand over an item if and only if no item from the cursor up to it fails |
| RelayDelivery.BadFirstItemStarves | aeon-sync/src/relay.rs:751-760 | one stored item whose data does not decode starves the good one behind it in every run |
| RelayDelivery.TicksDrain | aeon-sync/src/relay.rs:424-444 | as many answered ticks as items remain hand over all of them when every remaining item of another device can be imported |
| RelayDelivery.TicksDrainExactly | aeon-sync/src/relay.rs:424-444 | with the same imports failing in every tick and nothing imported ahead of the cursor, they hand over everything if and only if no remaining item fails |
| RelayDelivery.DeliveryKeptExactly | aeon-sync/src/relay.rs:534-550 | an event keeps the imported ids ascending and behind the cursor if and only if, seen before it: a tick finds no answer or no foreign item, or its first import fails, or none of the page fails; a restart finds nothing imported past the saved cursor |
| RelayDelivery.OrderKeptExactly | aeon-sync/src/relay.rs:424-550 | over every run, failing imports, failing cursor writes and restarts included, items are handed over in strictly ascending id order, hence at most once, at every moment if and only if every event is of that kind |
| RelayDelivery.DeliveredInOrder | aeon-sync/src/relay.rs:424-550 | in particular runs without failing imports or cursor writes keep the order, restarts and an unreachable relay included |
| RelayDelivery.HandedOverTwice | aeon-sync/src/relay.rs:534-550 | a page of two whose second import fails, then a tick in which both succeed: the first item is imported twice |
| Chunked.FindCrlf | aeon-sync/src/relay.rs:743-745 | the first CR LF, or none |
| Chunked.DecodeChunkedBody | aeon-sync/src/relay.rs:714-741 | the loop computes the recursive decoding, with each error in the source's order |
| Chunked.SizeLineParses | aeon-sync/src/relay.rs:719-726 | a size line with any extension, blanks before its semicolon included, reads as its size |
| Chunked.SizeLineAnyCase | aeon-sync/src/relay.rs:719-726 | in either case of its digits |
| Chunked.DecodeInvertsEncode | aeon-sync/src/relay.rs:714-741 | decoding inverts the coding of RFC 9112 section 7.1 for every list of nonempty chunks, any extensions, blanks before them included, and any trailer |
| Chunked.TruncatedChunk | aeon-sync/src/relay.rs:730-732 | after any good chunks, one with less data than its size is refused as truncated |
| Chunked.BadTerminator | aeon-sync/src/relay.rs:733-737 | so is one without a line break behind its data |
| Chunked.NoSizeLine | aeon-sync/src/relay.rs:718-720 | so is a size line that never ends |
| Chunked.BadSizeLine | aeon-sync/src/relay.rs:721-725 | so is a size line that is no size |

## Left out

- Machine code: Cranelift's code generation and the call into the finished function are represented by the block graph and its semantics.
- JitEngine.JitEngine.RunCompiled: `run_compiled_cached` and `run_compiled` appear as one method, and a compiled program that never returns is outside its contract.
- Vm.VMState.Run: a run that never stops is outside its contract; `steps` is unbounded, so its overflow is not modelled.
- Vfs.VirtualFS.WriteFd: a cursor plus length beyond 2^64 is not modelled; no file can be that long.
- Snapshots.RestoreMachine: snapshots with another number of registers, a malformed file system or dirty pages outside the heap are carried through as they are; the run theorems assume a well-formed machine.
- Session.SharedContext.Post: Lamport clocks are unbounded; `SessionRuns.KeysIdentifyItems` bounds them by the number of operations, so 64 bits last for every real run.
- Asm.Assemble: only ASCII letters are lower-cased; letters of other scripts in labels and mnemonics keep their case.
- Chunked.DecodeChunkedBody: a size so large that position plus size passes 2^64 is reported as truncated.
- ForthFiles.Load: a stored length within 8 of 2^64 is reported as truncated.
- ForthMachine.RunSteps: a machine on which no Forth program was started, whose two files are missing or foreign, is outside its contract; `ForthFiles.Load` says which error it gets.
- ForthMachine.Start: the tokenizer, colon definitions and includes of `compile_source`, and the step budget of `run`, are not part of this model; dictionary and tokens are parameters.
- Nonces.NoReplay: assumes clock readings that never go back and stay clear of 2^64 by the window and the lifetime.
- Relay.RelayClient.Tick: HTTP and the JSON of a page are left out, a pull fails or succeeds as a whole; a cursor write that fails leaves the file as it was, a half-written file is not modelled.
- Reconcile.EventBloom.MightContain: lookups in a malformed filter that make the source panic are outside the contract; `Reconcile.AnyTestIsSafe` needs no filter at all.
- CollabTransport.Exchange: frames arrive intact or not at all; the encoded length is a parameter.
- Byte formats of snapshots, deltas, contexts and patch sets, and the version check and checksum around them, are left out: serializers are libraries.
- `parse_rfc2822_utc_ms` and `parse_rfc3339_utc_ms` around the civil-date core, and the dynamic truncation in `hotp_sha1`.
- Cryptography (blake3, ed25519, AES-GCM, PBKDF2, HMAC) and the automerge documents: libraries.
- Sockets, HTTP handlers, the daemon, consoles, capture, tunnels, stores of accounts and profiles.
