/** Any number of replicas editing, posting, sending and merging in any order: what every run keeps. */
module SessionRuns {
  import opened Words
  import opened Snapshots
  import opened Editor
  import opened Session

  /** `sent` holds every context ever put on the wire, so it may arrive late, twice, out of order or never. */
  datatype World = World(replicas: seq<Context>, sent: seq<Context>)

  datatype Op =
    | OpPatch(replica: nat, author: SessionId, message: string, ps: PatchSet, now: u64)
    | OpPost(replica: nat, author: SessionId, text: string, now: u64)
    | OpSend(replica: nat)
    | OpReceive(replica: nat, packet: nat)
    | OpSessions(replica: nat, sessions: seq<SessionId>)

  /** Replica `i` carries the sessions `names[i]` and writes under these names only; all replicas start from one base. */
  datatype Setup = Setup(names: seq<set<SessionId>>, creator: SessionId, id: string, base: Snapshot)

  /** No session writes at two replicas. */
  predicate DistinctNames(names: seq<set<SessionId>>) {
    forall i, j :: 0 <= i < j < |names| ==> names[i] !! names[j]
  }

  function Start(s: Setup): World {
    World(seq(|s.names|, i requires 0 <= i < |s.names| => Context(s.id, s.base, [], [], [s.creator])), [])
  }

  function Exec(s: Setup, w: World, op: Op): (r: World)
    requires |w.replicas| == |s.names|
    ensures |r.replicas| == |s.names|
  {
    if op.replica >= |w.replicas| then w
    else
      var i := op.replica;
      var c := w.replicas[i];
      match op
      case OpPatch(_, author, message, ps, now) =>
        var r := ApplyPatch(c, author, message, ps, now);
        if r.Err? || author !in s.names[i] then w else w.(replicas := w.replicas[i := r.value])
      case OpPost(_, author, text, now) =>
        if author !in s.names[i] then w else w.(replicas := w.replicas[i := PostMessage(c, author, text, now)])
      case OpSend(_) => w.(sent := w.sent + [c])
      case OpReceive(_, packet) =>
        if packet >= |w.sent| || w.sent[packet].base.programId != c.base.programId then w
        else w.(replicas := w.replicas[i := Merge(c, w.sent[packet])])
      case OpSessions(_, sessions) => w.(replicas := w.replicas[i := c.(sessions := sessions)])
  }

  function Run(s: Setup, ops: seq<Op>): (r: World)
    ensures |r.replicas| == |s.names|
    decreases |ops|
  {
    if ops == [] then Start(s) else Exec(s, Run(s, ops[..|ops| - 1]), ops[|ops| - 1])
  }

  /** Contexts that exist somewhere: at a replica or on the wire. */
  ghost predicate Known(w: World, c: Context) { c in w.replicas || c in w.sent }

  // ----- the invariant -----

  /** What replica `i` has written: its own list is where each of its items can be found. */
  ghost predicate Written<T>(names: seq<set<SessionId>>, own: seq<seq<Stamped<T>>>, x: Stamped<T>, i: nat) {
    i < |names| && i < |own| && x.author in names[i] && x in own[i]
  }

  ghost predicate Owned<T(!new)>(names: seq<set<SessionId>>, own: seq<seq<Stamped<T>>>, items: seq<Stamped<T>>, bound: nat) {
    && StrictlySorted(items)
    && forall x :: x in items ==> x.clock <= bound && exists i: nat :: Written(names, own, x, i)
  }

  function Patches(w: World): seq<seq<AttributedPatch>> {
    seq(|w.replicas|, i requires 0 <= i < |w.replicas| => w.replicas[i].patches)
  }

  function Messages(w: World): seq<seq<SessionMessage>> {
    seq(|w.replicas|, i requires 0 <= i < |w.replicas| => w.replicas[i].messages)
  }

  ghost predicate PatchesFit(ps: seq<AttributedPatch>, shape: Shape) {
    forall x :: x in ps ==> AllFit(x.body.patchset.patches, shape)
  }

  ghost predicate ContextOk(s: Setup, w: World, n: nat, c: Context) {
    && c.id == s.id && c.base == s.base
    && Owned(s.names, Patches(w), c.patches, n)
    && Owned(s.names, Messages(w), c.messages, n)
    && PatchesFit(c.patches, ShapeOf(s.base))
  }

  ghost predicate Inv(s: Setup, w: World, n: nat) {
    && DistinctNames(s.names) && |w.replicas| == |s.names|
    && forall c :: Known(w, c) ==> ContextOk(s, w, n, c)
  }

  ghost predicate Grows<T(!new)>(own: seq<seq<Stamped<T>>>, next: seq<seq<Stamped<T>>>) {
    |own| == |next| && forall i, x :: 0 <= i < |own| && x in own[i] ==> x in next[i]
  }

  lemma OwnedGrows<T(!new)>(names: seq<set<SessionId>>, own: seq<seq<Stamped<T>>>, next: seq<seq<Stamped<T>>>,
                            items: seq<Stamped<T>>, n: nat)
    requires Owned(names, own, items, n) && Grows(own, next)
    ensures Owned(names, next, items, n + 1)
  {
    forall x | x in items ensures x.clock <= n + 1 && exists i: nat :: Written(names, next, x, i) {
      var i: nat :| Written(names, own, x, i);
      assert Written(names, next, x, i);
    }
  }

  /** Two items with one key were written by one replica, whose own list holds both: they are the same item. */
  lemma OwnedConsistent<T(!new)>(names: seq<set<SessionId>>, own: seq<seq<Stamped<T>>>, a: seq<Stamped<T>>, b: seq<Stamped<T>>, n: nat)
    requires DistinctNames(names) && Owned(names, own, a, n) && Owned(names, own, b, n)
    requires forall i :: 0 <= i < |own| ==> StrictlySorted(own[i])
    ensures Consistent(a, b)
  {
    forall x, y | x in a && y in b && SameKey(x, y) ensures x == y {
      var i: nat :| Written(names, own, x, i);
      var j: nat :| Written(names, own, y, j);
      assert x.author in names[i] * names[j];
      assert !(i < j) && !(j < i);
      SortedDistinct(own[i]);
      var k :| 0 <= k < |own[i]| && own[i][k] == x;
      var l :| 0 <= l < |own[i]| && own[i][l] == y;
      assert k == l;
    }
  }

  lemma OwnedAppend<T(!new)>(names: seq<set<SessionId>>, own: seq<seq<Stamped<T>>>, next: seq<seq<Stamped<T>>>,
                             items: seq<Stamped<T>>, x: Stamped<T>, i: nat, n: nat)
    requires Owned(names, own, items, n) && Grows(own, next)
    requires Written(names, next, x, i) && x.clock <= n + 1
    requires forall k :: 0 <= k < |items| ==> items[k].clock < x.clock
    ensures Owned(names, next, items + [x], n + 1)
  {
    OwnedGrows(names, own, next, items, n);
    assert Written(names, next, x, i);
  }

  lemma OwnedMerge<T(!new)>(names: seq<set<SessionId>>, own: seq<seq<Stamped<T>>>, a: seq<Stamped<T>>, b: seq<Stamped<T>>, n: nat)
    requires DistinctNames(names) && Owned(names, own, a, n) && Owned(names, own, b, n)
    requires forall i :: 0 <= i < |own| ==> StrictlySorted(own[i])
    ensures Owned(names, own, MergeItems(a, b), n)
    ensures forall y :: y in MergeItems(a, b) <==> y in a || y in b
  {
    OwnedConsistent(names, own, a, b, n);
    OwnedConsistent(names, own, b, b, n);
    MergeIsUnion(a, b);
  }

  lemma OwnSorted(s: Setup, w: World, n: nat)
    requires Inv(s, w, n)
    ensures forall i :: 0 <= i < |w.replicas| ==> ContextOk(s, w, n, w.replicas[i])
    ensures forall i :: 0 <= i < |w.replicas| ==> StrictlySorted(Patches(w)[i]) && StrictlySorted(Messages(w)[i])
  {
    forall i | 0 <= i < |w.replicas| ensures ContextOk(s, w, n, w.replicas[i]) {
      assert Known(w, w.replicas[i]);
    }
  }

  // ----- a patch log that fits always replays -----

  lemma {:induction false} FitReplays(id: string, s: Snapshot, ps: seq<AttributedPatch>)
    requires PatchesFit(ps, ShapeOf(s))
    ensures ReplayAll(id, s, ps).Ok? && ShapeOf(ReplayAll(id, s, ps).value) == ShapeOf(s)
    decreases |ps|
  {
    if ps != [] {
      assert ps[0] in ps;
      AllByShape(ps[0].body.patchset.patches, s);
      FitReplays(id, Replay(id, s, ps[0]).value, ps[1..]);
    }
  }

  /** In a context of the run a patch is accepted exactly when it fits the shape of the base. */
  lemma PatchAccepted(s: Setup, w: World, n: nat, c: Context, author: SessionId, message: string, ps: PatchSet, now: u64)
    requires Inv(s, w, n) && Known(w, c)
    ensures CurrentSnapshot(c).Ok?
    ensures ApplyPatch(c, author, message, ps, now).Ok? <==> AllFit(ps.patches, ShapeOf(s.base))
  {
    assert ContextOk(s, w, n, c);
    FitReplays(c.id, c.base, c.patches);
    AllByShape(ps.patches, CurrentSnapshot(c).value);
  }

  // ----- every operation keeps the invariant -----

  lemma ReplaceGrows(w: World, i: nat, c: Context)
    requires i < |w.replicas|
    requires forall x :: x in w.replicas[i].patches ==> x in c.patches
    requires forall x :: x in w.replicas[i].messages ==> x in c.messages
    ensures Grows(Patches(w), Patches(w.(replicas := w.replicas[i := c])))
    ensures Grows(Messages(w), Messages(w.(replicas := w.replicas[i := c])))
  {
  }

  /** Replacing one replica by a grown context that is itself in order keeps everything in order. */
  lemma ReplaceKeeps(s: Setup, w: World, n: nat, i: nat, c: Context)
    requires Inv(s, w, n) && i < |w.replicas|
    requires forall x :: x in w.replicas[i].patches ==> x in c.patches
    requires forall x :: x in w.replicas[i].messages ==> x in c.messages
    requires ContextOk(s, w.(replicas := w.replicas[i := c]), n + 1, c)
    ensures Inv(s, w.(replicas := w.replicas[i := c]), n + 1)
  {
    var w' := w.(replicas := w.replicas[i := c]);
    ReplaceGrows(w, i, c);
    forall d | Known(w', d) ensures ContextOk(s, w', n + 1, d) {
      if d != c {
        assert Known(w, d);
        OwnedGrows(s.names, Patches(w), Patches(w'), d.patches, n);
        OwnedGrows(s.names, Messages(w), Messages(w'), d.messages, n);
      }
    }
  }

  lemma ClockFresh(s: Setup, w: World, n: nat, c: Context)
    requires Inv(s, w, n) && Known(w, c)
    ensures NextClock(c) <= n + 1
    ensures forall k :: 0 <= k < |c.patches| ==> c.patches[k].clock < NextClock(c)
    ensures forall k :: 0 <= k < |c.messages| ==> c.messages[k].clock < NextClock(c)
  {
    assert ContextOk(s, w, n, c);
    assert forall k :: 0 <= k < |c.patches| ==> c.patches[k] in c.patches;
    assert forall k :: 0 <= k < |c.messages| ==> c.messages[k] in c.messages;
  }

  lemma PatchKeeps(s: Setup, w: World, n: nat, i: nat, author: SessionId, message: string, ps: PatchSet, now: u64)
    requires Inv(s, w, n) && i < |w.replicas| && i < |s.names| && author in s.names[i]
    requires ApplyPatch(w.replicas[i], author, message, ps, now).Ok?
    ensures Inv(s, w.(replicas := w.replicas[i := ApplyPatch(w.replicas[i], author, message, ps, now).value]), n + 1)
  {
    hide CurrentSnapshot, Owned;
    var c := w.replicas[i];
    var d := ApplyPatch(c, author, message, ps, now).value;
    var w' := w.(replicas := w.replicas[i := d]);
    assert Known(w, c);
    ReplaceGrows(w, i, d);
    ClockFresh(s, w, n, c);
    PatchAccepted(s, w, n, c, author, message, ps, now);
    var x := d.patches[|d.patches| - 1];
    assert d.patches == c.patches + [x];
    assert Patches(w')[i] == d.patches;
    assert Written(s.names, Patches(w'), x, i);
    OwnedAppend(s.names, Patches(w), Patches(w'), c.patches, x, i, n);
    OwnedGrows(s.names, Messages(w), Messages(w'), c.messages, n);
    ReplaceKeeps(s, w, n, i, d);
  }

  lemma PostKeeps(s: Setup, w: World, n: nat, i: nat, author: SessionId, text: string, now: u64)
    requires Inv(s, w, n) && i < |w.replicas| && i < |s.names| && author in s.names[i]
    ensures Inv(s, w.(replicas := w.replicas[i := PostMessage(w.replicas[i], author, text, now)]), n + 1)
  {
    hide Owned;
    var c := w.replicas[i];
    var d := PostMessage(c, author, text, now);
    var w' := w.(replicas := w.replicas[i := d]);
    assert Known(w, c);
    ReplaceGrows(w, i, d);
    ClockFresh(s, w, n, c);
    var x := d.messages[|d.messages| - 1];
    assert Messages(w')[i] == d.messages;
    assert Written(s.names, Messages(w'), x, i);
    OwnedAppend(s.names, Messages(w), Messages(w'), c.messages, x, i, n);
    OwnedGrows(s.names, Patches(w), Patches(w'), c.patches, n);
    ReplaceKeeps(s, w, n, i, d);
  }

  lemma ReceiveKeeps(s: Setup, w: World, n: nat, i: nat, packet: nat)
    requires Inv(s, w, n) && i < |w.replicas| && packet < |w.sent|
    ensures Inv(s, w.(replicas := w.replicas[i := Merge(w.replicas[i], w.sent[packet])]), n + 1)
  {
    hide Owned, MergeItems;
    var c, r := w.replicas[i], w.sent[packet];
    var d := Merge(c, r);
    var w' := w.(replicas := w.replicas[i := d]);
    assert Known(w, c) && Known(w, r);
    OwnSorted(s, w, n);
    OwnedMerge(s.names, Patches(w), c.patches, r.patches, n);
    OwnedMerge(s.names, Messages(w), c.messages, r.messages, n);
    ReplaceGrows(w, i, d);
    OwnedGrows(s.names, Patches(w), Patches(w'), d.patches, n);
    OwnedGrows(s.names, Messages(w), Messages(w'), d.messages, n);
    ReplaceKeeps(s, w, n, i, d);
  }

  lemma OtherKeeps(s: Setup, w: World, n: nat, op: Op)
    requires Inv(s, w, n) && !op.OpPatch? && !op.OpPost? && !op.OpReceive?
    ensures Inv(s, Exec(s, w, op), n + 1)
  {
    hide Owned;
    var w' := Exec(s, w, op);
    assert Patches(w') == Patches(w) && Messages(w') == Messages(w);
    forall d | Known(w', d) ensures ContextOk(s, w', n + 1, d) {
      var c := if Known(w, d) then d else w.replicas[op.replica];
      assert Known(w, c) && ContextOk(s, w, n, c);
      OwnedGrows(s.names, Patches(w), Patches(w'), d.patches, n);
      OwnedGrows(s.names, Messages(w), Messages(w'), d.messages, n);
    }
  }

  lemma StayKeeps(s: Setup, w: World, n: nat)
    requires Inv(s, w, n)
    ensures Inv(s, w, n + 1)
  {
    hide Owned;
    forall d | Known(w, d) ensures ContextOk(s, w, n + 1, d) {
      OwnedGrows(s.names, Patches(w), Patches(w), d.patches, n);
      OwnedGrows(s.names, Messages(w), Messages(w), d.messages, n);
    }
  }

  lemma OpKeeps(s: Setup, w: World, n: nat, op: Op)
    requires Inv(s, w, n)
    ensures Inv(s, Exec(s, w, op), n + 1)
  {
    hide Inv, ApplyPatch, PostMessage, Merge;
    assert |w.replicas| == |s.names| by { InvSize(s, w, n); }
    StayKeeps(s, w, n);
    if op.replica < |w.replicas| {
      match op
      case OpPatch(i, author, message, ps, now) =>
        if author in s.names[i] && ApplyPatch(w.replicas[i], author, message, ps, now).Ok? {
          PatchKeeps(s, w, n, i, author, message, ps, now);
        }
      case OpPost(i, author, text, now) =>
        if author in s.names[i] {
          PostKeeps(s, w, n, i, author, text, now);
        }
      case OpReceive(i, packet) =>
        if packet < |w.sent| {
          ReceiveKeeps(s, w, n, i, packet);
        }
      case _ => OtherKeeps(s, w, n, op);
    }
  }

  lemma InvSize(s: Setup, w: World, n: nat)
    requires Inv(s, w, n)
    ensures |w.replicas| == |s.names|
  {
  }

  lemma {:induction false} RunKeeps(s: Setup, ops: seq<Op>)
    requires DistinctNames(s.names)
    ensures Inv(s, Run(s, ops), |ops|)
    decreases |ops|
  {
    if ops == [] {
      var w := Start(s);
      forall c | Known(w, c) ensures ContextOk(s, w, 0, c) {
        var i :| 0 <= i < |w.replicas| && w.replicas[i] == c;
      }
    } else {
      RunKeeps(s, ops[..|ops| - 1]);
      OpKeeps(s, Run(s, ops[..|ops| - 1]), |ops| - 1, ops[|ops| - 1]);
    }
  }

  // ----- what holds in every run -----

  /** Wherever two contexts of a run meet, equal (clock, author) keys carry equal items, lists are strictly sorted by key, and no clock exceeds the number of operations. */
  lemma KeysIdentifyItems(s: Setup, ops: seq<Op>, a: Context, b: Context)
    requires DistinctNames(s.names) && Known(Run(s, ops), a) && Known(Run(s, ops), b)
    ensures StrictlySorted(a.patches) && StrictlySorted(a.messages)
    ensures Consistent(a.patches, b.patches) && Consistent(a.messages, b.messages)
    ensures forall x :: x in a.patches ==> x.clock <= |ops|
    ensures forall x :: x in a.messages ==> x.clock <= |ops|
  {
    var w, n := Run(s, ops), |ops|;
    RunKeeps(s, ops);
    OwnSorted(s, w, n);
    assert ContextOk(s, w, n, a) && ContextOk(s, w, n, b);
    OwnedConsistent(s.names, Patches(w), a.patches, b.patches, n);
    OwnedConsistent(s.names, Messages(w), a.messages, b.messages, n);
  }

  /** Two replicas post under one name. */
  function Collision(i: nat, j: nat, author: SessionId): seq<Op> { [OpPost(i, author, "a", 0), OpPost(j, author, "b", 0)] }

  /** A session that writes at two replicas gets one key for two different messages. */
  lemma SharedNameCollides(s: Setup, i: nat, j: nat, author: SessionId)
    requires i < j < |s.names| && author in s.names[i] && author in s.names[j]
    ensures var w := Run(s, Collision(i, j, author)); !Consistent(w.replicas[i].messages, w.replicas[j].messages)
  {
    var ops := Collision(i, j, author);
    var x, y := Stamped(author, 1, 0, "a"), Stamped(author, 1, 0, "b");
    assert ops[..1] == [ops[0]] && ops[..1][..0] == [];
    assert Run(s, []) == Start(s);
    assert Run(s, ops[..1]) == Exec(s, Start(s), ops[0]);
    assert Run(s, ops) == Exec(s, Run(s, ops[..1]), ops[1]);
    var w := Run(s, ops);
    assert w.replicas[i].messages == [x] && w.replicas[j].messages == [y];
    assert x in w.replicas[i].messages && y in w.replicas[j].messages && SameKey(x, y);
  }

  /** In every run equal keys mean equal items. */
  ghost predicate KeysAreUnique(s: Setup) {
    forall ops, a, b :: Known(Run(s, ops), a) && Known(Run(s, ops), b) ==>
      Consistent(a.patches, b.patches) && Consistent(a.messages, b.messages)
  }

  /** Keys identify items in all runs exactly when no session writes at two replicas. */
  lemma KeysUniqueExactly(s: Setup)
    ensures KeysAreUnique(s) <==> DistinctNames(s.names)
  {
    if DistinctNames(s.names) {
      forall ops, a, b | Known(Run(s, ops), a) && Known(Run(s, ops), b)
        ensures Consistent(a.patches, b.patches) && Consistent(a.messages, b.messages)
      {
        KeysIdentifyItems(s, ops, a, b);
      }
    } else {
      var i, j :| 0 <= i < j < |s.names| && !(s.names[i] !! s.names[j]);
      var author :| author in s.names[i] && author in s.names[j];
      SharedNameCollides(s, i, j, author);
      var w := Run(s, Collision(i, j, author));
      assert Known(w, w.replicas[i]) && Known(w, w.replicas[j]);
    }
  }

  /** Merging contexts of a run is commutative, associative and idempotent on patches and on messages. */
  lemma MergeAlgebra(s: Setup, ops: seq<Op>, a: Context, b: Context, c: Context)
    requires DistinctNames(s.names)
    requires Known(Run(s, ops), a) && Known(Run(s, ops), b) && Known(Run(s, ops), c)
    ensures MergeItems(a.patches, b.patches) == MergeItems(b.patches, a.patches)
    ensures MergeItems(MergeItems(a.patches, b.patches), c.patches) == MergeItems(a.patches, MergeItems(b.patches, c.patches))
    ensures MergeItems(a.patches, a.patches) == a.patches
    ensures MergeItems(a.messages, b.messages) == MergeItems(b.messages, a.messages)
    ensures MergeItems(MergeItems(a.messages, b.messages), c.messages) == MergeItems(a.messages, MergeItems(b.messages, c.messages))
    ensures MergeItems(a.messages, a.messages) == a.messages
  {
    hide Owned, MergeItems;
    var w, n := Run(s, ops), |ops|;
    RunKeeps(s, ops);
    OwnSorted(s, w, n);
    assert ContextOk(s, w, n, a) && ContextOk(s, w, n, b) && ContextOk(s, w, n, c);
    OwnedAlgebra(s.names, Patches(w), a.patches, b.patches, c.patches, n);
    OwnedAlgebra(s.names, Messages(w), a.messages, b.messages, c.messages, n);
  }

  lemma OwnedAlgebra<T(!new)>(names: seq<set<SessionId>>, own: seq<seq<Stamped<T>>>,
                              a: seq<Stamped<T>>, b: seq<Stamped<T>>, c: seq<Stamped<T>>, n: nat)
    requires DistinctNames(names) && Owned(names, own, a, n) && Owned(names, own, b, n) && Owned(names, own, c, n)
    requires forall i :: 0 <= i < |own| ==> StrictlySorted(own[i])
    ensures MergeItems(a, b) == MergeItems(b, a)
    ensures MergeItems(MergeItems(a, b), c) == MergeItems(a, MergeItems(b, c))
    ensures MergeItems(a, a) == a
  {
    hide MergeItems;
    OwnedMerge(names, own, a, b, n);
    OwnedMerge(names, own, b, a, n);
    OwnedMerge(names, own, b, c, n);
    OwnedMerge(names, own, a, a, n);
    OwnedMerge(names, own, MergeItems(a, b), c, n);
    OwnedMerge(names, own, a, MergeItems(b, c), n);
    SortedUnique(MergeItems(a, b), MergeItems(b, a));
    SortedUnique(MergeItems(MergeItems(a, b), c), MergeItems(a, MergeItems(b, c)));
    SortedUnique(MergeItems(a, a), a);
  }

  /** No merge of validated patches ever breaks one: every context, and every merge of two, replays. */
  lemma SnapshotsNeverFail(s: Setup, ops: seq<Op>, a: Context, b: Context)
    requires DistinctNames(s.names) && Known(Run(s, ops), a) && Known(Run(s, ops), b)
    ensures CurrentSnapshot(a).Ok? && CurrentSnapshot(Merge(a, b)).Ok?
  {
    hide Owned, MergeItems;
    var w, n := Run(s, ops), |ops|;
    RunKeeps(s, ops);
    OwnSorted(s, w, n);
    assert ContextOk(s, w, n, a) && ContextOk(s, w, n, b);
    OwnedMerge(s.names, Patches(w), a.patches, b.patches, n);
    FitReplays(a.id, a.base, a.patches);
    FitReplays(a.id, a.base, MergeItems(a.patches, b.patches));
  }

  /** Contexts holding the same patches show the same snapshot, hash-chained log included. */
  lemma SamePatchesSameSnapshot(s: Setup, ops: seq<Op>, a: Context, b: Context)
    requires DistinctNames(s.names) && Known(Run(s, ops), a) && Known(Run(s, ops), b)
    requires forall x :: x in a.patches <==> x in b.patches
    ensures a.patches == b.patches && CurrentSnapshot(a) == CurrentSnapshot(b)
  {
    var w, n := Run(s, ops), |ops|;
    RunKeeps(s, ops);
    assert ContextOk(s, w, n, a) && ContextOk(s, w, n, b);
    SortedUnique(a.patches, b.patches);
  }

  /** One exchange: the client sends, the server merges and replies, the client merges the reply. */
  lemma ExchangeConverges(s: Setup, ops: seq<Op>, client: Context, server: Context)
    requires DistinctNames(s.names) && Known(Run(s, ops), client) && Known(Run(s, ops), server)
    ensures var server' := Merge(server, client);
            var client' := Merge(client, server');
            && client'.patches == server'.patches && client'.messages == server'.messages
            && CurrentSnapshot(client') == CurrentSnapshot(server') && CurrentSnapshot(client').Ok?
            && forall x :: x in client'.sessions <==> x in server'.sessions
  {
    hide Owned, MergeItems, CurrentSnapshot;
    var w, n := Run(s, ops), |ops|;
    RunKeeps(s, ops);
    OwnSorted(s, w, n);
    assert ContextOk(s, w, n, client) && ContextOk(s, w, n, server);
    OwnedExchange(s.names, Patches(w), client.patches, server.patches, n);
    OwnedExchange(s.names, Messages(w), client.messages, server.messages, n);
    SnapshotsNeverFail(s, ops, server, client);
    SameReplay(Merge(client, Merge(server, client)), Merge(server, client));
    SessionsAdded(server.sessions, client.sessions);
    SessionsAdded(client.sessions, Merge(server, client).sessions);
  }

  lemma SameReplay(a: Context, b: Context)
    requires a.id == b.id && a.base == b.base && a.patches == b.patches
    ensures CurrentSnapshot(a) == CurrentSnapshot(b)
  {
  }

  lemma OwnedExchange<T(!new)>(names: seq<set<SessionId>>, own: seq<seq<Stamped<T>>>, a: seq<Stamped<T>>, b: seq<Stamped<T>>, n: nat)
    requires DistinctNames(names) && Owned(names, own, a, n) && Owned(names, own, b, n)
    requires forall i :: 0 <= i < |own| ==> StrictlySorted(own[i])
    ensures MergeItems(a, MergeItems(b, a)) == MergeItems(b, a)
  {
    hide MergeItems;
    OwnedMerge(names, own, b, a, n);
    OwnedMerge(names, own, a, MergeItems(b, a), n);
    SortedUnique(MergeItems(a, MergeItems(b, a)), MergeItems(b, a));
  }
}

/** The two-party exchange of aeon-vm/src/collab_transport.rs, frames taken as delivered intact. */
module CollabTransport {
  import opened Words
  import opened Session

  const MAX_CONTEXT_BYTES := 16 * 1024 * 1024

  datatype IoError = TooLarge | Disconnected | Refused(error: SessionError)

  /** `size` is the encoded length of a context. A side that fails closes the stream on the other. */
  method Exchange(client: SharedContext, server: SharedContext, size: Context -> nat)
    returns (clientResult: Result<MergeReport, IoError>, serverResult: Result<MergeReport, IoError>)
    requires client != server
    modifies client, server
    ensures var c, s := old(client.View()), old(server.View());
            var merged := Merge(s, c);
            if size(c) > MAX_CONTEXT_BYTES then
              clientResult == Err(TooLarge) && serverResult == Err(Disconnected) && client.View() == c && server.View() == s
            else if c.base.programId != s.base.programId then
              clientResult == Err(Disconnected) && serverResult == Err(Refused(ProgramDiffers))
              && client.View() == c && server.View() == s
            else if size(merged) > MAX_CONTEXT_BYTES then
              clientResult == Err(Disconnected) && serverResult == Err(TooLarge)
              && client.View() == c && server.View() == merged
            else
              && server.View() == merged && serverResult.Ok? && Some(serverResult.value) == Added(s, merged)
              && client.View() == Merge(c, merged) && clientResult.Ok? && Some(clientResult.value) == Added(c, Merge(c, merged))
  {
    var request := client.View();
    if size(request) > MAX_CONTEXT_BYTES {
      return Err(TooLarge), Err(Disconnected);
    }
    var report := server.MergeFrom(request);
    if report.Err? {
      return Err(Disconnected), Err(Refused(report.error));
    }
    var reply := server.View();
    if size(reply) > MAX_CONTEXT_BYTES {
      return Err(Disconnected), Err(TooLarge);
    }
    serverResult := Ok(report.value);
    var merged := client.MergeFrom(reply);
    clientResult := match merged case Ok(v) => Ok(v) case Err(e) => Err(Refused(e));
  }
}
