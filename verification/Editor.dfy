/** Patches over snapshots and the editor that records them (aeon-vm/src/editor.rs). */
module Editor {
  import opened Words
  import opened Snapshots

  datatype Patch =
    | Reg(index: u8, oldReg: u64, newReg: u64)
    | Pc(oldPc: usize, newPc: usize)
    | CallStackEntry(slot: usize, oldEntry: usize, newEntry: usize)
    | HeapRange(addr: usize, oldBytes: seq<u8>, newBytes: seq<u8>)
    | HeapTop(oldTop: Option<usize>, newTop: Option<usize>)

  datatype PatchSet = PatchSet(description: string, patches: seq<Patch>)

  datatype EditError =
    | NoRegister(index: nat)
    | NoCallStackEntry(slot: nat)
    | NoHeap
    | HeapRangeExceeds(addr: nat, len: nat, heapLen: nat)
    | TopExceeds(top: nat, heapLen: nat)

  /** `checked_heap_end` followed by `copy_from_slice`; a real heap is shorter than 2^64, so overflow is excess. */
  function WriteRange(heap: seq<u8>, addr: nat, bytes: seq<u8>): Result<seq<u8>, EditError> {
    if addr + |bytes| > |heap| then Err(HeapRangeExceeds(addr, |bytes|, |heap|))
    else Ok(heap[..addr] + bytes + heap[addr + |bytes|..])
  }

  function ApplyOne(p: Patch, s: Snapshot): Result<Snapshot, EditError> {
    match p
    case Reg(index, _, v) =>
      if index >= |s.regs| then Err(NoRegister(index)) else Ok(s.(regs := s.regs[index := v]))
    case Pc(_, v) => Ok(s.(pc := v))
    case CallStackEntry(slot, _, v) =>
      if slot >= |s.callStack| then Err(NoCallStackEntry(slot)) else Ok(s.(callStack := s.callStack[slot := v]))
    case HeapRange(addr, _, bytes) =>
      if s.heap.None? then Err(NoHeap)
      else
        var w := WriteRange(s.heap.value, addr, bytes);
        if w.Err? then Err(w.error) else Ok(s.(heap := Some(w.value)))
    case HeapTop(_, v) =>
      if s.heap.Some? && v.Some? && v.value > |s.heap.value| then Err(TopExceeds(v.value, |s.heap.value|))
      else Ok(s.(heapTop := v))
  }

  function ApplyAll(ps: seq<Patch>, s: Snapshot): Result<Snapshot, EditError>
    decreases |ps|
  {
    if ps == [] then Ok(s)
    else
      var r := ApplyOne(ps[0], s);
      if r.Err? then r else ApplyAll(ps[1..], r.value)
  }

  function Flip(p: Patch): Patch {
    match p
    case Reg(index, a, b) => Reg(index, b, a)
    case Pc(a, b) => Pc(b, a)
    case CallStackEntry(slot, a, b) => CallStackEntry(slot, b, a)
    case HeapRange(addr, a, b) => HeapRange(addr, b, a)
    case HeapTop(a, b) => HeapTop(b, a)
  }

  function FlipAll(ps: seq<Patch>): (r: seq<Patch>)
    ensures |r| == |ps|
    ensures forall k :: 0 <= k < |ps| ==> r[k] == Flip(ps[|ps| - 1 - k])
  {
    if ps == [] then [] else FlipAll(ps[1..]) + [Flip(ps[0])]
  }

  method ApplyPatchSet(ps: PatchSet, snap: Snapshot) returns (r: Result<Snapshot, EditError>)
    ensures r == ApplyAll(ps.patches, snap)
  {
    var next := snap;
    var i := 0;
    while i < |ps.patches|
      invariant 0 <= i <= |ps.patches|
      invariant ApplyAll(ps.patches[i..], next) == ApplyAll(ps.patches, snap)
    {
      assert ps.patches[i..][1..] == ps.patches[i + 1..];
      match ps.patches[i] {
        case Reg(index, _, v) =>
          if index >= |next.regs| {
            return Err(NoRegister(index));
          }
          next := next.(regs := next.regs[index := v]);
        case Pc(_, v) =>
          next := next.(pc := v);
        case CallStackEntry(slot, _, v) =>
          if slot >= |next.callStack| {
            return Err(NoCallStackEntry(slot));
          }
          next := next.(callStack := next.callStack[slot := v]);
        case HeapRange(addr, _, bytes) =>
          if next.heap.None? {
            return Err(NoHeap);
          }
          var w := WriteRange(next.heap.value, addr, bytes);
          if w.Err? {
            return Err(w.error);
          }
          next := next.(heap := Some(w.value));
        case HeapTop(_, v) =>
          if next.heap.Some? && v.Some? && v.value > |next.heap.value| {
            return Err(TopExceeds(v.value, |next.heap.value|));
          }
          next := next.(heapTop := v);
      }
      i := i + 1;
    }
    r := Ok(next);
  }

  function Reverse(ps: PatchSet): PatchSet {
    PatchSet("undo: " + ps.description, FlipAll(ps.patches))
  }

  // ----- a patch set succeeds or fails by shape alone -----

  datatype Shape = Shape(regs: nat, callStack: nat, heap: Option<nat>)

  function ShapeOf(s: Snapshot): Shape {
    Shape(|s.regs|, |s.callStack|, match s.heap case Some(h) => Some(|h|) case None => None)
  }

  predicate Fits(p: Patch, shape: Shape) {
    match p
    case Reg(index, _, _) => index < shape.regs
    case Pc(_, _) => true
    case CallStackEntry(slot, _, _) => slot < shape.callStack
    case HeapRange(addr, _, bytes) => shape.heap.Some? && addr + |bytes| <= shape.heap.value
    case HeapTop(_, v) => shape.heap.Some? && v.Some? ==> v.value <= shape.heap.value
  }

  predicate AllFit(ps: seq<Patch>, shape: Shape) {
    forall k :: 0 <= k < |ps| ==> Fits(ps[k], shape)
  }

  lemma OneByShape(p: Patch, s: Snapshot)
    ensures ApplyOne(p, s).Ok? <==> Fits(p, ShapeOf(s))
    ensures ApplyOne(p, s).Ok? ==> ShapeOf(ApplyOne(p, s).value) == ShapeOf(s)
  {
  }

  /** Applying keeps the shape, and whether it succeeds depends on the shape only. */
  lemma {:induction false} AllByShape(ps: seq<Patch>, s: Snapshot)
    ensures ApplyAll(ps, s).Ok? <==> AllFit(ps, ShapeOf(s))
    ensures ApplyAll(ps, s).Ok? ==> ShapeOf(ApplyAll(ps, s).value) == ShapeOf(s)
    decreases |ps|
  {
    hide ApplyOne, Fits, ShapeOf;
    if ps != [] {
      OneByShape(ps[0], s);
      if ApplyOne(ps[0], s).Ok? {
        AllByShape(ps[1..], ApplyOne(ps[0], s).value);
        assert forall k :: 0 < k < |ps| ==> ps[k] == ps[1..][k - 1];
        assert forall k :: 0 <= k < |ps| - 1 ==> ps[1..][k] == ps[k + 1];
      }
    }
  }

  // ----- the editor -----

  datatype Edit =
    | SetReg(index: u8, val: u64)
    | SetPc(pc: usize)
    | SetCallStackEntry(slot: usize, val: usize)
    | SetHeapRange(addr: usize, bytes: seq<u8>)
    | SetHeapTop(top: usize)

  datatype Editing = Editing(working: Snapshot, patches: seq<Patch>)

  /** One setter: the change to the working snapshot and the patch it records. */
  function EditOne(e: Editing, edit: Edit): Result<Editing, EditError> {
    var w := e.working;
    match edit
    case SetReg(index, val) =>
      if index >= |w.regs| then Err(NoRegister(index))
      else Ok(Editing(w.(regs := w.regs[index := val]), e.patches + [Reg(index, w.regs[index], val)]))
    case SetPc(pc) => Ok(Editing(w.(pc := pc), e.patches + [Pc(w.pc, pc)]))
    case SetCallStackEntry(slot, val) =>
      if slot >= |w.callStack| then Err(NoCallStackEntry(slot))
      else Ok(Editing(w.(callStack := w.callStack[slot := val]),
                      e.patches + [CallStackEntry(slot, w.callStack[slot], val)]))
    case SetHeapRange(addr, bytes) =>
      if w.heap.None? then Err(NoHeap)
      else
        var r := WriteRange(w.heap.value, addr, bytes);
        if r.Err? then Err(r.error)
        else Ok(Editing(w.(heap := Some(r.value)),
                        e.patches + [HeapRange(addr, w.heap.value[addr..addr + |bytes|], bytes)]))
    case SetHeapTop(top) =>
      if w.heap.None? then Err(NoHeap)
      else if top > |w.heap.value| then Err(TopExceeds(top, |w.heap.value|))
      else Ok(Editing(w.(heapTop := Some(top)), e.patches + [HeapTop(w.heapTop, Some(top))]))
  }

  /** A chain of setters; the first failure ends it. */
  function EditAll(e: Editing, edits: seq<Edit>): Result<Editing, EditError>
    decreases |edits|
  {
    if edits == [] then Ok(e)
    else
      var r := EditAll(e, edits[..|edits| - 1]);
      if r.Err? then r else EditOne(r.value, edits[|edits| - 1])
  }

  lemma EditAllStep(start: Editing, edits: seq<Edit>, edit: Edit)
    requires EditAll(start, edits).Ok?
    ensures EditAll(start, edits + [edit]) == EditOne(EditAll(start, edits).value, edit)
  {
    hide EditOne;
    assert (edits + [edit])[..|edits|] == edits;
  }

  class SnapshotEditor {
    var working: Snapshot
    var description: string
    var patches: seq<Patch>
    ghost const base: Snapshot
    ghost var edits: seq<Edit>

    /** `edits` are the setters that have succeeded since `base`. */
    ghost predicate Valid()
      reads this
    {
      EditAll(Editing(base, []), edits) == Ok(View())
    }

    function View(): Editing
      reads this
    {
      Editing(working, patches)
    }

    constructor (snap: Snapshot, description: string)
      ensures Valid() && base == snap && edits == []
      ensures View() == Editing(snap, []) && this.description == description
    {
      working, this.description, patches := snap, description, [];
      base, edits := snap, [];
    }

    /** The setters consume the editor, so what a failed one leaves behind is never seen. */
    method Set(edit: Edit) returns (r: Result<(), EditError>)
      requires Valid()
      modifies this`working, this`patches, this`edits
      ensures Valid() && edits == old(edits) + (if r.Ok? then [edit] else [])
      ensures match EditOne(old(View()), edit)
              case Ok(e) => r.Ok? && View() == e
              case Err(x) => r == Err(x) && View() == old(View())
    {
      hide EditAll;
      EditAllStep(Editing(base, []), edits, edit);
      match edit {
        case SetReg(index, val) =>
          if index >= |working.regs| {
            return Err(NoRegister(index));
          }
          var before := working.regs[index];
          working := working.(regs := working.regs[index := val]);
          patches := patches + [Reg(index, before, val)];
        case SetPc(pc) =>
          var before := working.pc;
          working := working.(pc := pc);
          patches := patches + [Pc(before, pc)];
        case SetCallStackEntry(slot, val) =>
          if slot >= |working.callStack| {
            return Err(NoCallStackEntry(slot));
          }
          var before := working.callStack[slot];
          working := working.(callStack := working.callStack[slot := val]);
          patches := patches + [CallStackEntry(slot, before, val)];
        case SetHeapRange(addr, bytes) =>
          if working.heap.None? {
            return Err(NoHeap);
          }
          var heap := working.heap.value;
          if addr + |bytes| > |heap| {
            return Err(HeapRangeExceeds(addr, |bytes|, |heap|));
          }
          var before := heap[addr..addr + |bytes|];
          working := working.(heap := Some(heap[..addr] + bytes + heap[addr + |bytes|..]));
          patches := patches + [HeapRange(addr, before, bytes)];
        case SetHeapTop(top) =>
          if working.heap.None? {
            return Err(NoHeap);
          }
          if top > |working.heap.value| {
            return Err(TopExceeds(top, |working.heap.value|));
          }
          var before := working.heapTop;
          working := working.(heapTop := Some(top));
          patches := patches + [HeapTop(before, Some(top))];
      }
      edits := edits + [edit];
      r := Ok(());
    }

    method SetHeapU64(addr: usize, val: u64) returns (r: Result<(), EditError>)
      requires Valid()
      modifies this`working, this`patches, this`edits
      ensures Valid()
      ensures match EditOne(old(View()), SetHeapRange(addr, ToLe(val, 8)))
              case Ok(e) => r.Ok? && View() == e && FromLe(working.heap.value[addr..addr + 8]) == val
              case Err(x) => r == Err(x) && View() == old(View())
    {
      U64Bytes(val);
      r := Set(SetHeapRange(addr, ToLe(val, 8)));
      assert r.Ok? ==> working.heap.value[addr..addr + 8] == ToLe(val, 8);
    }

    /** The patch set replays the whole editing session from its base, and its reverse undoes it exactly when no edit moved
        a bump pointer that was outside the heap to begin with. */
    method Build() returns (ps: PatchSet)
      requires Valid()
      ensures ps == PatchSet(description, patches)
      ensures ApplyAll(ps.patches, base) == Ok(working)
      ensures ApplyAll(Reverse(ps).patches, working) == Ok(base) <==> (TopInHeap(base) || !EditsTop(edits))
    {
      hide ApplyAll, EditOne, TopInHeap;
      EditsReplay(base, edits);
      UndoExactly(base, edits, description);
      ps := PatchSet(description, patches);
    }
  }

  // ----- replay and undo -----

  lemma {:induction false} ApplyAppend(a: seq<Patch>, b: seq<Patch>, s: Snapshot)
    ensures ApplyAll(a + b, s) == (var r := ApplyAll(a, s); if r.Err? then r else ApplyAll(b, r.value))
    decreases |a|
  {
    hide ApplyOne;
    if a == [] {
      assert a + b == b;
    } else {
      assert (a + b)[0] == a[0] && (a + b)[1..] == a[1..] + b;
      if ApplyOne(a[0], s).Ok? {
        ApplyAppend(a[1..], b, ApplyOne(a[0], s).value);
      }
    }
  }

  /** The bump pointer, when recorded, lies inside the heap. */
  predicate TopInHeap(s: Snapshot) {
    s.heap.Some? && s.heapTop.Some? ==> s.heapTop.value <= |s.heap.value|
  }

  predicate EditsTop(edits: seq<Edit>) {
    exists k :: 0 <= k < |edits| && edits[k].SetHeapTop?
  }

  /** The patch an edit records. */
  function Recorded(w: Snapshot, edit: Edit): (p: Patch)
    requires EditOne(Editing(w, []), edit).Ok?
    ensures p.HeapTop? <==> edit.SetHeapTop?
    ensures edit.SetHeapTop? ==> p.oldTop == w.heapTop && w.heap.Some?
  {
    EditOne(Editing(w, []), edit).value.patches[0]
  }

  /** The recorded patch replays the edit, and its flip takes it back unless it restores a bump pointer outside the heap. */
  lemma EditReplays(e: Editing, edit: Edit)
    requires EditOne(e, edit).Ok?
    ensures EditOne(Editing(e.working, []), edit).Ok?
    ensures EditOne(e, edit).value.patches == e.patches + [Recorded(e.working, edit)]
    ensures ApplyOne(Recorded(e.working, edit), e.working) == Ok(EditOne(e, edit).value.working)
    ensures ShapeOf(EditOne(e, edit).value.working) == ShapeOf(e.working)
    ensures edit.SetHeapTop? ==> TopInHeap(EditOne(e, edit).value.working)
    ensures !edit.SetHeapTop? ==> EditOne(e, edit).value.working.heapTop == e.working.heapTop
    ensures (edit.SetHeapTop? ==> TopInHeap(e.working)) ==>
              ApplyOne(Flip(Recorded(e.working, edit)), EditOne(e, edit).value.working) == Ok(e.working)
  {
    var s := e.working;
    if edit.SetReg? {
      assert s.regs[edit.index := edit.val][edit.index := s.regs[edit.index]] == s.regs;
    } else if edit.SetCallStackEntry? {
      assert s.callStack[edit.slot := edit.val][edit.slot := s.callStack[edit.slot]] == s.callStack;
    } else if edit.SetHeapRange? {
      var h, n := e.working.heap.value, |edit.bytes|;
      var w := h[..edit.addr] + edit.bytes + h[edit.addr + n..];
      assert h == w[..edit.addr] + h[edit.addr..edit.addr + n] + w[edit.addr + n..];
    }
  }

  lemma FlipAppend(ps: seq<Patch>, p: Patch)
    ensures FlipAll(ps + [p]) == [Flip(p)] + FlipAll(ps)
  {
    forall k | 0 <= k < |ps| + 1 ensures FlipAll(ps + [p])[k] == ([Flip(p)] + FlipAll(ps))[k] {
      assert FlipAll(ps + [p])[k] == Flip((ps + [p])[|ps| - k]);
    }
  }

  /** For every chain of successful setters the built patch set takes the base to the working snapshot. */
  lemma {:induction false} EditsReplay(base: Snapshot, edits: seq<Edit>)
    requires EditAll(Editing(base, []), edits).Ok?
    ensures var e := EditAll(Editing(base, []), edits).value;
            ApplyAll(e.patches, base) == Ok(e.working) && ShapeOf(e.working) == ShapeOf(base)
    decreases |edits|
  {
    hide EditOne, ApplyOne, ShapeOf;
    if edits != [] {
      var before := EditAll(Editing(base, []), edits[..|edits| - 1]).value;
      var e := EditAll(Editing(base, []), edits).value;
      EditsReplay(base, edits[..|edits| - 1]);
      EditReplays(before, edits[|edits| - 1]);
      var p := Recorded(before.working, edits[|edits| - 1]);
      ApplyAppend(before.patches, [p], base);
      assert ApplyAll([p], before.working) == ApplyOne(p, before.working) by {
        if ApplyOne(p, before.working).Ok? { assert [p][1..] == []; }
      }
    }
  }

  /** The bump pointer stays in the heap once it is; until an edit sets it, it is the base's. */
  lemma {:induction false} TopTracked(base: Snapshot, edits: seq<Edit>)
    requires EditAll(Editing(base, []), edits).Ok?
    ensures var w := EditAll(Editing(base, []), edits).value.working;
            && (TopInHeap(base) || EditsTop(edits) ==> TopInHeap(w))
            && (!EditsTop(edits) ==> w.heapTop == base.heapTop)
    decreases |edits|
  {
    hide EditOne, ApplyOne;
    if edits != [] {
      var front, last := edits[..|edits| - 1], edits[|edits| - 1];
      var before := EditAll(Editing(base, []), front).value;
      TopTracked(base, front);
      EditReplays(before, last);
      EditsReplay(base, front);
      EditsReplay(base, edits);
      assert EditsTop(edits) <==> EditsTop(front) || last.SetHeapTop?;
    }
  }

  lemma {:induction false} EditsUndo(base: Snapshot, edits: seq<Edit>)
    requires EditAll(Editing(base, []), edits).Ok?
    requires TopInHeap(base) || !EditsTop(edits)
    ensures var e := EditAll(Editing(base, []), edits).value;
            ApplyAll(FlipAll(e.patches), e.working) == Ok(base)
    decreases |edits|
  {
    hide EditOne, ApplyOne, ShapeOf, TopInHeap, Flip;
    if edits != [] {
      var front, last := edits[..|edits| - 1], edits[|edits| - 1];
      var before := EditAll(Editing(base, []), front).value;
      var e := EditAll(Editing(base, []), edits).value;
      assert EditsTop(edits) <==> EditsTop(front) || last.SetHeapTop?;
      TopTracked(base, front);
      EditReplays(before, last);
      EditsUndo(base, front);
      var p := Recorded(before.working, last);
      FlipAppend(before.patches, p);
      assert ([Flip(p)] + FlipAll(before.patches))[1..] == FlipAll(before.patches);
    }
  }

  lemma {:induction false} FirstTopRecorded(base: Snapshot, edits: seq<Edit>)
    requires EditAll(Editing(base, []), edits).Ok? && EditsTop(edits) && !TopInHeap(base)
    ensures base.heap.Some?
    ensures exists k :: 0 <= k < |EditAll(Editing(base, []), edits).value.patches|
                      && EditAll(Editing(base, []), edits).value.patches[k].HeapTop?
                      && EditAll(Editing(base, []), edits).value.patches[k].oldTop == base.heapTop
    decreases |edits|
  {
    hide EditOne, ApplyOne;
    var front, last := edits[..|edits| - 1], edits[|edits| - 1];
    var before := EditAll(Editing(base, []), front).value;
    var e := EditAll(Editing(base, []), edits).value;
    EditReplays(before, last);
    assert EditsTop(edits) <==> EditsTop(front) || last.SetHeapTop?;
    if EditsTop(front) {
      FirstTopRecorded(base, front);
      var k :| 0 <= k < |before.patches| && before.patches[k].HeapTop? && before.patches[k].oldTop == base.heapTop;
      assert e.patches[k] == before.patches[k];
    } else {
      TopTracked(base, front);
      assert e.patches[|e.patches| - 1].oldTop == base.heapTop;
    }
  }

  /** Undo returns exactly the base unless the chain moved a bump pointer that was outside its heap to begin with. */
  lemma UndoExactly(base: Snapshot, edits: seq<Edit>, description: string)
    requires EditAll(Editing(base, []), edits).Ok?
    ensures var e := EditAll(Editing(base, []), edits).value;
            ApplyAll(Reverse(PatchSet(description, e.patches)).patches, e.working) == Ok(base)
            <==> (TopInHeap(base) || !EditsTop(edits))
  {
    hide EditAll, EditOne, ApplyAll;
    var e := EditAll(Editing(base, []), edits).value;
    if TopInHeap(base) || !EditsTop(edits) {
      EditsUndo(base, edits);
    } else {
      FirstTopRecorded(base, edits);
      EditsReplay(base, edits);
      var k :| 0 <= k < |e.patches| && e.patches[k].HeapTop? && e.patches[k].oldTop == base.heapTop;
      AllByShape(FlipAll(e.patches), e.working);
      assert FlipAll(e.patches)[|e.patches| - 1 - k] == Flip(e.patches[k]);
      assert !Fits(Flip(e.patches[k]), ShapeOf(base));
    }
  }

  /** A base whose bump pointer lies outside its one-byte heap: setting it to 0 succeeds and cannot be undone. */
  lemma StrayTopIsNotRestored(snap: Snapshot, description: string)
    ensures var base := snap.(heap := Some([0]), heapTop := Some(5));
            var edited := EditAll(Editing(base, []), [SetHeapTop(0)]);
            && edited.Ok?
            && ApplyAll(Reverse(PatchSet(description, edited.value.patches)).patches, edited.value.working) == Err(TopExceeds(5, 1))
  {
    var base := snap.(heap := Some([0]), heapTop := Some(5));
    assert [SetHeapTop(0)][..0] == [];
    assert EditAll(Editing(base, []), []) == Ok(Editing(base, []));
    var p := HeapTop(Some(5), Some(0));
    assert [] + [p] == [p];
    assert FlipAll([p]) == [Flip(p)];
  }

  // ----- what one patch and one edit do -----

  /** A patch sets what it names to its new value and leaves the rest; this is all that can go wrong. */
  lemma PatchMeans(p: Patch, s: Snapshot)
    ensures var r := ApplyOne(p, s);
            match p
            case Reg(index, _, v) =>
              if index < |s.regs| then r == Ok(s.(regs := s.regs[..index] + [v] + s.regs[index + 1..])) else r == Err(NoRegister(index))
            case Pc(_, v) => r == Ok(s.(pc := v))
            case CallStackEntry(slot, _, v) =>
              if slot < |s.callStack| then r == Ok(s.(callStack := s.callStack[..slot] + [v] + s.callStack[slot + 1..]))
              else r == Err(NoCallStackEntry(slot))
            case HeapRange(addr, _, bytes) =>
              if s.heap.None? then r == Err(NoHeap)
              else if addr + |bytes| > |s.heap.value| then r == Err(HeapRangeExceeds(addr, |bytes|, |s.heap.value|))
              else && r.Ok? && r.value == s.(heap := r.value.heap) && r.value.heap.Some? && |r.value.heap.value| == |s.heap.value|
                   && r.value.heap.value[addr..addr + |bytes|] == bytes
                   && forall i :: 0 <= i < |s.heap.value| && !(addr <= i < addr + |bytes|) ==> r.value.heap.value[i] == s.heap.value[i]
            case HeapTop(_, v) =>
              if s.heap.Some? && v.Some? && v.value > |s.heap.value| then r == Err(TopExceeds(v.value, |s.heap.value|))
              else r == Ok(s.(heapTop := v))
  {
    if p.Reg? && p.index < |s.regs| {
      assert s.regs[p.index := p.newReg] == s.regs[..p.index] + [p.newReg] + s.regs[p.index + 1..];
    } else if p.CallStackEntry? && p.slot < |s.callStack| {
      assert s.callStack[p.slot := p.newEntry] == s.callStack[..p.slot] + [p.newEntry] + s.callStack[p.slot + 1..];
    }
  }

  /** A setter records one patch, with the value before and the value asked for, exactly when that patch applies and, for the
      bump pointer, there is a heap to bound it. */
  lemma EditRecords(e: Editing, edit: Edit)
    ensures var w, r := e.working, EditOne(e, edit);
            r.Ok? ==>
              && |r.value.patches| == |e.patches| + 1 && e.patches <= r.value.patches
              && ApplyOne(r.value.patches[|e.patches|], w) == Ok(r.value.working)
              && match edit
                 case SetReg(index, val) => index < |w.regs| && r.value.patches[|e.patches|] == Reg(index, w.regs[index], val)
                 case SetPc(pc) => r.value.patches[|e.patches|] == Pc(w.pc, pc)
                 case SetCallStackEntry(slot, val) =>
                   slot < |w.callStack| && r.value.patches[|e.patches|] == CallStackEntry(slot, w.callStack[slot], val)
                 case SetHeapRange(addr, bytes) =>
                   && w.heap.Some? && addr + |bytes| <= |w.heap.value|
                   && r.value.patches[|e.patches|] == HeapRange(addr, w.heap.value[addr..addr + |bytes|], bytes)
                 case SetHeapTop(top) => w.heap.Some? && r.value.patches[|e.patches|] == HeapTop(w.heapTop, Some(top))
    ensures match edit
            case SetReg(index, _) => EditOne(e, edit).Err? <==> index >= |e.working.regs|
            case SetPc(_) => EditOne(e, edit).Ok?
            case SetCallStackEntry(slot, _) => EditOne(e, edit).Err? <==> slot >= |e.working.callStack|
            case SetHeapRange(addr, bytes) => EditOne(e, edit).Err? <==> e.working.heap.None? || addr + |bytes| > |e.working.heap.value|
            case SetHeapTop(top) => EditOne(e, edit).Err? <==> e.working.heap.None? || top > |e.working.heap.value|
  {
    EditOneRecorded(e, edit);
  }

  lemma EditOneRecorded(e: Editing, edit: Edit)
    ensures EditOne(e, edit).Ok? ==> EditOne(e, edit).value.patches == e.patches + [Recorded(e.working, edit)]
  {
    if EditOne(e, edit).Ok? { EditReplays(e, edit); }
  }

  /** The reverse of a patch set is named after it, and reversing twice gives the patches back. */
  lemma ReverseMeans(ps: PatchSet)
    ensures Reverse(ps).description == "undo: " + ps.description
    ensures Reverse(Reverse(ps)).patches == ps.patches
  {
    forall k | 0 <= k < |ps.patches| ensures FlipAll(FlipAll(ps.patches))[k] == ps.patches[k] {
      assert FlipAll(ps.patches)[|ps.patches| - 1 - k] == Flip(ps.patches[k]);
      assert Flip(Flip(ps.patches[k])) == ps.patches[k];
    }
  }
}
