/** The shared context: a Lamport-ordered log of patches and messages merged between replicas (aeon-vm/src/session.rs). */
module Session {
  import opened Words
  import opened Ordered
  import opened Snapshots
  import opened Editor
  import EventLog

  type SessionId = string

  /** The fields `AttributedPatch` and `SessionMessage` share; `body` is the rest. */
  datatype Stamped<T> = Stamped(author: SessionId, clock: nat, wallMs: u64, body: T)

  datatype PatchBody = PatchBody(message: string, patchset: PatchSet)

  type AttributedPatch = Stamped<PatchBody>
  type SessionMessage = Stamped<string>

  datatype Context = Context(
    id: string,
    base: Snapshot,
    patches: seq<AttributedPatch>,
    messages: seq<SessionMessage>,
    sessions: seq<SessionId>)

  datatype MergeReport = MergeReport(patches: nat, messages: nat, sessions: nat)

  datatype SessionError = PatchFailed(author: SessionId, error: EditError) | Invalid(error: EditError) | ProgramDiffers

  // ----- the order on keys -----

  /** Keys are compared by clock, then by author. */
  predicate KeyLess<T>(x: Stamped<T>, y: Stamped<T>) {
    x.clock < y.clock || (x.clock == y.clock && StringLess(x.author, y.author))
  }

  predicate SameKey<T>(x: Stamped<T>, y: Stamped<T>) { x.clock == y.clock && x.author == y.author }

  lemma KeyOrder<T>(x: Stamped<T>, y: Stamped<T>)
    ensures KeyLess(x, y) || SameKey(x, y) || KeyLess(y, x)
    ensures !(KeyLess(x, y) && KeyLess(y, x)) && !KeyLess(x, x)
    ensures SameKey(x, y) ==> !KeyLess(x, y)
  {
    StringLessTotal(x.author, y.author);
    StringLessTotal(x.author, x.author);
  }

  lemma KeyTransitive<T>(x: Stamped<T>, y: Stamped<T>, z: Stamped<T>)
    requires KeyLess(x, y) && KeyLess(y, z)
    ensures KeyLess(x, z)
  {
    if x.clock == y.clock == z.clock {
      StringLessTransitive(x.author, y.author, z.author);
    }
  }

  ghost predicate StrictlySorted<T>(xs: seq<Stamped<T>>) {
    forall i, j :: 0 <= i < j < |xs| ==> KeyLess(xs[i], xs[j])
  }

  // ----- merging item lists -----

  /** A stable insertion: after every element that is not greater. */
  function Insert<T(!new)>(x: Stamped<T>, xs: seq<Stamped<T>>): (r: seq<Stamped<T>>)
    ensures |r| == |xs| + 1
    ensures forall y :: y in r <==> y == x || y in xs
    decreases |xs|
  {
    if xs == [] || !KeyLess(x, xs[|xs| - 1]) then xs + [x]
    else
      var last := xs[|xs| - 1];
      assert xs == xs[..|xs| - 1] + [last];
      Insert(x, xs[..|xs| - 1]) + [last]
  }

  /** `sort_by_key` on (clock, author). */
  function SortByKey<T(!new)>(xs: seq<Stamped<T>>): (r: seq<Stamped<T>>)
    ensures |r| == |xs|
    ensures forall y :: y in r <==> y in xs
    decreases |xs|
  {
    if xs == [] then []
    else
      assert xs == xs[..|xs| - 1] + [xs[|xs| - 1]];
      Insert(xs[|xs| - 1], SortByKey(xs[..|xs| - 1]))
  }

  predicate HasKey<T>(xs: seq<Stamped<T>>, y: Stamped<T>) {
    exists k :: 0 <= k < |xs| && SameKey(xs[k], y)
  }

  /** Remote items whose key is new are appended in turn. */
  function AddMissing<T>(local: seq<Stamped<T>>, remote: seq<Stamped<T>>): (r: seq<Stamped<T>>)
    ensures local <= r
    decreases |remote|
  {
    if remote == [] then local
    else AddMissing(if HasKey(local, remote[0]) then local else local + [remote[0]], remote[1..])
  }

  function MergeItems<T(!new)>(local: seq<Stamped<T>>, remote: seq<Stamped<T>>): seq<Stamped<T>> {
    SortByKey(AddMissing(local, remote))
  }

  function AddSessions(local: seq<SessionId>, remote: seq<SessionId>): (r: seq<SessionId>)
    ensures local <= r
    decreases |remote|
  {
    if remote == [] then local
    else AddSessions(if remote[0] in local then local else local + [remote[0]], remote[1..])
  }

  /** `retain`: every other session stays, as often and in the order it was. */
  function Without(sessions: seq<SessionId>, session: SessionId): (r: seq<SessionId>)
    ensures multiset(r) == multiset(sessions)[session := 0]
    decreases |sessions|
  {
    if sessions == [] then []
    else
      var front, last := sessions[..|sessions| - 1], sessions[|sessions| - 1];
      assert sessions == front + [last];
      Without(front, session) + if last == session then [] else [last]
  }

  lemma WithoutNothing(session: SessionId)
    ensures Without([], session) == []
  {
  }

  lemma WithoutStep(sessions: seq<SessionId>, i: nat, session: SessionId)
    requires i < |sessions|
    ensures Without(sessions[..i + 1], session)
            == if sessions[i] == session then Without(sessions[..i], session) else Without(sessions[..i], session) + [sessions[i]]
  {
    assert sessions[..i + 1][..i] == sessions[..i];
    assert Without(sessions[..i], session) + [] == Without(sessions[..i], session);
  }

  function Merge(local: Context, remote: Context): Context {
    Context(local.id, local.base, MergeItems(local.patches, remote.patches),
            MergeItems(local.messages, remote.messages), AddSessions(local.sessions, remote.sessions))
  }

  /** How many patches, messages and sessions a merge added. */
  function Added(before: Context, after: Context): Option<MergeReport> {
    var patches, messages := |after.patches| - |before.patches|, |after.messages| - |before.messages|;
    var sessions := |after.sessions| - |before.sessions|;
    if patches >= 0 && messages >= 0 && sessions >= 0 then Some(MergeReport(patches, messages, sessions)) else None
  }

  // ----- clocks and the current snapshot -----

  function MaxClock<T>(xs: seq<Stamped<T>>): (m: nat)
    ensures forall k :: 0 <= k < |xs| ==> xs[k].clock <= m
    ensures m == 0 || exists k :: 0 <= k < |xs| && xs[k].clock == m
    decreases |xs|
  {
    if xs == [] then 0
    else
      var m := MaxClock(xs[..|xs| - 1]);
      var last := xs[|xs| - 1];
      assert forall k :: 0 <= k < |xs| - 1 ==> xs[k] == xs[..|xs| - 1][k];
      assert xs[|xs| - 1].clock == last.clock;
      if last.clock > m then last.clock else m
  }

  function NextClock(c: Context): nat {
    var p, m := MaxClock(c.patches), MaxClock(c.messages);
    (if p > m then p else m) + 1
  }

  /** One logged patch: apply it, then record it in the hash-chained log. */
  function Replay(id: string, s: Snapshot, p: AttributedPatch): Result<Snapshot, SessionError> {
    var r := ApplyAll(p.body.patchset.patches, s);
    if r.Err? then Err(PatchFailed(p.author, r.error))
    else
      var event := EventLog.PatchApplied(id, p.author, p.body.message, |p.body.patchset.patches|);
      Ok(r.value.(eventLog := EventLog.Append(r.value.eventLog, event, p.wallMs)))
  }

  function ReplayAll(id: string, s: Snapshot, ps: seq<AttributedPatch>): Result<Snapshot, SessionError>
    decreases |ps|
  {
    if ps == [] then Ok(s)
    else
      var r := Replay(id, s, ps[0]);
      if r.Err? then r else ReplayAll(id, r.value, ps[1..])
  }

  function CurrentSnapshot(c: Context): Result<Snapshot, SessionError> {
    ReplayAll(c.id, c.base, c.patches)
  }

  /** `None` when the patch does not apply to the current snapshot. */
  function ApplyPatch(c: Context, author: SessionId, message: string, ps: PatchSet, wallMs: u64): Result<Context, SessionError> {
    var current := CurrentSnapshot(c);
    if current.Err? then Err(current.error)
    else
      var r := ApplyAll(ps.patches, current.value);
      if r.Err? then Err(Invalid(r.error))
      else Ok(c.(patches := c.patches + [Stamped(author, NextClock(c), wallMs, PatchBody(message, ps))]))
  }

  function PostMessage(c: Context, author: SessionId, text: string, wallMs: u64): Context {
    c.(messages := c.messages + [Stamped(author, NextClock(c), wallMs, text)])
  }

  // ----- what the current snapshot holds -----

  /** All patches of a log, one after the other. */
  function AllPatches(ps: seq<AttributedPatch>): seq<Patch> {
    if ps == [] then [] else ps[0].body.patchset.patches + AllPatches(ps[1..])
  }

  /** The log entry one patch leaves: who changed what, and when. */
  predicate LoggedAs(entry: EventLog.LogEntry, id: string, p: AttributedPatch) {
    && entry.event == EventLog.PatchApplied(id, p.author, p.body.message, |p.body.patchset.patches|)
    && entry.timestampMs == p.wallMs
  }

  /** `log` is `before` with one entry for each of `ps`, in that order. */
  ghost predicate Logs(before: EventLog.Log, log: EventLog.Log, id: string, ps: seq<AttributedPatch>) {
    && before <= log && |log| == |before| + |ps|
    && forall k :: 0 <= k < |ps| ==> LoggedAs(log[|before| + k], id, ps[k])
  }

  function WithLog(r: Result<Snapshot, EditError>, log: EventLog.Log): Result<Snapshot, EditError> {
    match r case Ok(s) => Ok(s.(eventLog := log)) case Err(e) => Err(e)
  }

  lemma {:induction false} ApplyIgnoresLog(ps: seq<Patch>, s: Snapshot, log: EventLog.Log)
    ensures ApplyAll(ps, s.(eventLog := log)) == WithLog(ApplyAll(ps, s), log)
    ensures ApplyAll(ps, s).Ok? ==> ApplyAll(ps, s).value.eventLog == s.eventLog
    decreases |ps|
  {
    if ps != [] {
      assert ApplyOne(ps[0], s.(eventLog := log)) == WithLog(ApplyOne(ps[0], s), log);
      if ApplyOne(ps[0], s).Ok? {
        ApplyIgnoresLog(ps[1..], ApplyOne(ps[0], s).value, log);
      }
    }
  }

  lemma {:induction false} ReplayHolds(id: string, s: Snapshot, ps: seq<AttributedPatch>)
    ensures ReplayAll(id, s, ps).Ok? <==> ApplyAll(AllPatches(ps), s).Ok?
    ensures ReplayAll(id, s, ps).Ok? ==>
              var r := ReplayAll(id, s, ps).value;
              && r.(eventLog := s.eventLog) == ApplyAll(AllPatches(ps), s).value
              && Logs(s.eventLog, r.eventLog, id, ps)
              && (EventLog.Verified(s.eventLog) ==> EventLog.Verified(r.eventLog))
    decreases |ps|
  {
    hide ApplyOne, EventLog.Verified;
    if ps == [] {
      assert s.(eventLog := s.eventLog) == s;
    } else {
      var first := ps[0].body.patchset.patches;
      ApplyAppend(first, AllPatches(ps[1..]), s);
      ApplyIgnoresLog(first, s, s.eventLog);
      if ApplyAll(first, s).Ok? {
        var event := EventLog.PatchApplied(id, ps[0].author, ps[0].body.message, |first|);
        var next := ApplyAll(first, s).value.(eventLog := EventLog.Append(s.eventLog, event, ps[0].wallMs));
        assert Replay(id, s, ps[0]) == Ok(next);
        ReplayHolds(id, next, ps[1..]);
        ApplyIgnoresLog(AllPatches(ps[1..]), ApplyAll(first, s).value, next.eventLog);
        if EventLog.Verified(s.eventLog) { EventLog.AppendVerified(s.eventLog, event, ps[0].wallMs); }
        if ReplayAll(id, next, ps[1..]).Ok? {
          LogsOneMore(s.eventLog, next.eventLog, ReplayAll(id, next, ps[1..]).value.eventLog, id, ps);
        }
      }
    }
  }

  lemma LogsOneMore(a: EventLog.Log, b: EventLog.Log, c: EventLog.Log, id: string, ps: seq<AttributedPatch>)
    requires ps != [] && Logs(a, b, id, [ps[0]]) && Logs(b, c, id, ps[1..])
    ensures Logs(a, c, id, ps)
  {
    forall k | 0 <= k < |ps| ensures LoggedAs(c[|a| + k], id, ps[k]) {
      if k == 0 {
        assert LoggedAs(b[|a| + 0], id, [ps[0]][0]) && c[|a|] == b[|a|];
      } else {
        assert LoggedAs(c[|b| + (k - 1)], id, ps[1..][k - 1]);
      }
    }
  }

  /** Apart from its log the current snapshot is the base with all patch sets applied in list order; its log is the base's
      followed by one entry per patch, and stays a verified chain. It exists exactly when all patches apply. */
  lemma CurrentSnapshotHolds(c: Context)
    ensures CurrentSnapshot(c).Ok? <==> ApplyAll(AllPatches(c.patches), c.base).Ok?
    ensures CurrentSnapshot(c).Ok? ==>
              var s := CurrentSnapshot(c).value;
              && s.(eventLog := c.base.eventLog) == ApplyAll(AllPatches(c.patches), c.base).value
              && Logs(c.base.eventLog, s.eventLog, c.id, c.patches)
              && (EventLog.Verified(c.base.eventLog) ==> EventLog.Verified(s.eventLog))
  {
    ReplayHolds(c.id, c.base, c.patches);
  }

  /** When it does not exist, the error names the author of the first patch that does not apply, and why. */
  lemma {:induction false} ReplayFails(id: string, s: Snapshot, ps: seq<AttributedPatch>, k: nat)
    requires k < |ps| && ReplayAll(id, s, ps[..k]).Ok?
    requires ApplyAll(ps[k].body.patchset.patches, ReplayAll(id, s, ps[..k]).value).Err?
    ensures ReplayAll(id, s, ps)
            == Err(PatchFailed(ps[k].author, ApplyAll(ps[k].body.patchset.patches, ReplayAll(id, s, ps[..k]).value).error))
    decreases k
  {
    hide ApplyAll;
    if k > 0 {
      assert ps[..k][0] == ps[0] && ps[..k][1..] == ps[1..][..k - 1];
      ReplayFails(id, Replay(id, s, ps[0]).value, ps[1..], k - 1);
    }
  }

  lemma {:induction false} ReplayOneMore(id: string, s: Snapshot, ps: seq<AttributedPatch>, p: AttributedPatch)
    requires ReplayAll(id, s, ps).Ok?
    ensures ReplayAll(id, s, ps + [p]) == Replay(id, ReplayAll(id, s, ps).value, p)
    decreases |ps|
  {
    hide Replay;
    if ps == [] {
      assert ps + [p] == [p] && [p][1..] == [];
      assert Replay(id, s, p).Ok? ==> ReplayAll(id, Replay(id, s, p).value, []) == Replay(id, s, p);
    } else {
      assert (ps + [p])[1..] == ps[1..] + [p];
      ReplayOneMore(id, Replay(id, s, ps[0]).value, ps[1..], p);
    }
  }

  /** `c` shows `was` with `ps` applied and one entry logged. */
  ghost predicate ShowsPatch(was: Snapshot, c: Context, author: SessionId, message: string, ps: seq<Patch>, now: u64) {
    && CurrentSnapshot(c).Ok? && ApplyAll(ps, was).Ok?
    && var seen := CurrentSnapshot(c).value;
       && seen.(eventLog := was.eventLog) == ApplyAll(ps, was).value
       && |seen.eventLog| == |was.eventLog| + 1 && was.eventLog <= seen.eventLog
       && seen.eventLog[|was.eventLog|].event == EventLog.PatchApplied(c.id, author, message, |ps|)
       && seen.eventLog[|was.eventLog|].timestampMs == now
  }

  lemma NewPatchShows(c: Context, author: SessionId, message: string, ps: PatchSet, clock: nat, now: u64)
    requires CurrentSnapshot(c).Ok? && ApplyAll(ps.patches, CurrentSnapshot(c).value).Ok?
    ensures ShowsPatch(CurrentSnapshot(c).value,
                       c.(patches := c.patches + [Stamped(author, clock, now, PatchBody(message, ps))]), author, message, ps.patches, now)
  {
    hide ApplyAll;
    ReplayOneMore(c.id, c.base, c.patches, Stamped(author, clock, now, PatchBody(message, ps)));
    ApplyIgnoresLog(ps.patches, CurrentSnapshot(c).value, CurrentSnapshot(c).value.eventLog);
  }

  /** In particular a register that was set reads as set. */
  lemma PatchedRegisterReads(was: Snapshot, c: Context, author: SessionId, message: string, index: u8, old_: u64, v: u64, now: u64)
    requires ShowsPatch(was, c, author, message, [Reg(index, old_, v)], now)
    ensures index < |CurrentSnapshot(c).value.regs| && CurrentSnapshot(c).value.regs == was.regs[index := v]
  {
    assert [Reg(index, old_, v)][1..] == [];
    assert ApplyAll([], ApplyOne(Reg(index, old_, v), was).value) == Ok(ApplyOne(Reg(index, old_, v), was).value);
  }

  class SharedContext {
    const id: string
    const baseSnapshot: Snapshot
    var patches: seq<AttributedPatch>
    var messages: seq<SessionMessage>
    var connectedSessions: seq<SessionId>

    function View(): Context
      reads this
    {
      Context(id, baseSnapshot, patches, messages, connectedSessions)
    }

    constructor (id: string, base: Snapshot, creator: SessionId)
      ensures View() == Context(id, base, [], [], [creator])
    {
      this.id, baseSnapshot := id, base;
      patches, messages, connectedSessions := [], [], [creator];
    }

    method SnapshotNow() returns (r: Result<Snapshot, SessionError>)
      ensures r == CurrentSnapshot(View())
    {
      var snap := baseSnapshot;
      var i := 0;
      while i < |patches|
        invariant 0 <= i <= |patches|
        invariant ReplayAll(id, snap, patches[i..]) == CurrentSnapshot(View())
      {
        assert patches[i..][1..] == patches[i + 1..];
        var patch := patches[i];
        var applied := ApplyPatchSet(patch.body.patchset, snap);
        if applied.Err? {
          return Err(PatchFailed(patch.author, applied.error));
        }
        var log := new EventLog.EventLog(applied.value.eventLog);
        var hash := log.AppendAt(
          EventLog.PatchApplied(id, patch.author, patch.body.message, |patch.body.patchset.patches|), patch.wallMs);
        snap := applied.value.(eventLog := log.entries);
        i := i + 1;
      }
      r := Ok(snap);
    }

    method AddPatch(author: SessionId, message: string, ps: PatchSet, now: u64) returns (r: Result<nat, SessionError>)
      modifies this`patches
      ensures match ApplyPatch(old(View()), author, message, ps, now)
              case Ok(c) => r == Ok(NextClock(old(View()))) && View() == c
              case Err(e) => r == Err(e) && View() == old(View())
      ensures r.Ok? <==> CurrentSnapshot(old(View())).Ok? && ApplyAll(ps.patches, CurrentSnapshot(old(View())).value).Ok?
      ensures r.Ok? ==> patches == old(patches) + [Stamped(author, r.value, now, PatchBody(message, ps))]
      ensures r.Ok? ==> ShowsPatch(CurrentSnapshot(old(View())).value, View(), author, message, ps.patches, now)
    {
      hide ShowsPatch, CurrentSnapshot, ApplyAll;
      var current := SnapshotNow();
      if current.Err? {
        return Err(current.error);
      }
      var valid := ApplyPatchSet(ps, current.value);
      if valid.Err? {
        return Err(Invalid(valid.error));
      }
      var clock := NextClock(View());
      NewPatchShows(View(), author, message, ps, clock, now);
      patches := patches + [Stamped(author, clock, now, PatchBody(message, ps))];
      r := Ok(clock);
    }

    method Post(author: SessionId, text: string, now: u64) returns (clock: nat)
      modifies this`messages
      ensures View() == PostMessage(old(View()), author, text, now) && clock == NextClock(old(View()))
      ensures messages == old(messages) + [Stamped(author, clock, now, text)]
    {
      clock := NextClock(View());
      messages := messages + [Stamped(author, clock, now, text)];
    }

    method MergeFrom(remote: Context) returns (r: Result<MergeReport, SessionError>)
      modifies this
      ensures r.Ok? <==> remote.base.programId == baseSnapshot.programId
      ensures r.Err? ==> r.error == ProgramDiffers && View() == old(View())
      ensures r.Ok? ==> View() == Merge(old(View()), remote)
      ensures r.Ok? ==> Some(r.value) == Added(old(View()), View())
    {
      hide MergeItems, AddSessions;
      if remote.base.programId != baseSnapshot.programId {
        return Err(ProgramDiffers);
      }
      var newPatches := MergeList(patches, remote.patches);
      var newMessages := MergeList(messages, remote.messages);
      var counts := (|newPatches| - |patches|, |newMessages| - |messages|);
      patches := newPatches;
      messages := newMessages;
      var before := |connectedSessions|;
      connectedSessions := MergeSessions(connectedSessions, remote.sessions);
      r := Ok(MergeReport(counts.0, counts.1, |connectedSessions| - before));
    }

    method Join(session: SessionId)
      modifies this`connectedSessions
      ensures View() == old(View()).(sessions := AddSessions(old(connectedSessions), [session]))
    {
      if session !in connectedSessions {
        connectedSessions := connectedSessions + [session];
      }
    }

    method Leave(session: SessionId)
      modifies this`connectedSessions
      ensures View() == old(View()).(sessions := Without(old(connectedSessions), session))
      ensures session !in connectedSessions
    {
      hide Without;
      WithoutNothing(session);
      var kept: seq<SessionId> := [];
      var i := 0;
      while i < |connectedSessions|
        invariant 0 <= i <= |connectedSessions|
        invariant kept == Without(connectedSessions[..i], session)
        invariant connectedSessions == old(connectedSessions)
      {
        WithoutStep(connectedSessions, i, session);
        if connectedSessions[i] != session {
          kept := kept + [connectedSessions[i]];
        }
        i := i + 1;
      }
      assert connectedSessions[..i] == connectedSessions;
      assert kept == Without(old(connectedSessions), session) && multiset(kept)[session] == 0;
      connectedSessions := kept;
    }
  }

  /** The two loops of `merge_from` over patches and over messages. */
  method MergeList<T(==,!new)>(local: seq<Stamped<T>>, remote: seq<Stamped<T>>) returns (r: seq<Stamped<T>>)
    ensures r == MergeItems(local, remote) && |r| >= |local|
  {
    var items := local;
    var i := 0;
    while i < |remote|
      invariant 0 <= i <= |remote| && |items| >= |local|
      invariant AddMissing(items, remote[i..]) == AddMissing(local, remote)
    {
      assert remote[i..][1..] == remote[i + 1..];
      if !HasKey(items, remote[i]) {
        items := items + [remote[i]];
      }
      i := i + 1;
    }
    r := SortByKey(items);
  }

  method MergeSessions(local: seq<SessionId>, remote: seq<SessionId>) returns (r: seq<SessionId>)
    ensures r == AddSessions(local, remote) && |r| >= |local|
  {
    r := local;
    var i := 0;
    while i < |remote|
      invariant 0 <= i <= |remote| && |r| >= |local|
      invariant AddSessions(r, remote[i..]) == AddSessions(local, remote)
    {
      assert remote[i..][1..] == remote[i + 1..];
      if remote[i] !in r {
        r := r + [remote[i]];
      }
      i := i + 1;
    }
  }

  // ----- the algebra of merging -----

  /** A merge keeps whose context it is, and takes patches from patches and messages from messages. */
  lemma MergeParts(a: Context, b: Context)
    ensures Merge(a, b).id == a.id && Merge(a, b).base == a.base
    ensures forall s :: s in Merge(a, b).sessions <==> s in a.sessions || s in b.sessions
    ensures a.sessions <= Merge(a, b).sessions
    ensures forall i, j :: |a.sessions| <= j < |Merge(a, b).sessions| && 0 <= i < j ==> Merge(a, b).sessions[i] != Merge(a, b).sessions[j]
  {
    SessionsAdded(a.sessions, b.sessions);
  }

  /** Sessions that were not there are added once each. */
  lemma {:induction false} SessionsAdded(local: seq<SessionId>, remote: seq<SessionId>)
    ensures forall s :: s in AddSessions(local, remote) <==> s in local || s in remote
    ensures forall i, j :: |local| <= j < |AddSessions(local, remote)| && 0 <= i < j ==>
                             AddSessions(local, remote)[i] != AddSessions(local, remote)[j]
    decreases |remote|
  {
    if remote != [] {
      var next := if remote[0] in local then local else local + [remote[0]];
      SessionsAdded(next, remote[1..]);
      assert remote == [remote[0]] + remote[1..];
      var all := AddSessions(local, remote);
      assert forall i :: 0 <= i < |next| ==> all[i] == next[i];
    }
  }

  /** The next clock is one above the greatest known one. */
  lemma NextClockIsNext(c: Context)
    ensures forall k :: 0 <= k < |c.patches| ==> c.patches[k].clock < NextClock(c)
    ensures forall k :: 0 <= k < |c.messages| ==> c.messages[k].clock < NextClock(c)
    ensures NextClock(c) == 1 || (exists k :: 0 <= k < |c.patches| && c.patches[k].clock + 1 == NextClock(c))
                              || (exists k :: 0 <= k < |c.messages| && c.messages[k].clock + 1 == NextClock(c))
  {
    var p, m := MaxClock(c.patches), MaxClock(c.messages);
    if p > m {
      var k :| 0 <= k < |c.patches| && c.patches[k].clock == p;
    } else if m > 0 {
      var k :| 0 <= k < |c.messages| && c.messages[k].clock == m;
    }
  }

  /** Equal keys mean equal items, across both lists. */
  ghost predicate Consistent<T(!new)>(xs: seq<Stamped<T>>, ys: seq<Stamped<T>>) {
    forall x, y :: x in xs && y in ys && SameKey(x, y) ==> x == y
  }

  ghost predicate DistinctKeys<T>(xs: seq<Stamped<T>>) {
    forall i, j :: 0 <= i < j < |xs| ==> !SameKey(xs[i], xs[j])
  }

  lemma SortedDistinct<T>(xs: seq<Stamped<T>>)
    requires StrictlySorted(xs)
    ensures DistinctKeys(xs)
  {
    forall i, j | 0 <= i < j < |xs| ensures !SameKey(xs[i], xs[j]) {
      KeyOrder(xs[i], xs[j]);
    }
  }

  lemma {:induction false} InsertSorted<T(!new)>(x: Stamped<T>, xs: seq<Stamped<T>>)
    requires StrictlySorted(xs) && !HasKey(xs, x)
    ensures StrictlySorted(Insert(x, xs))
    decreases |xs|
  {
    var n := |xs| - 1;
    if xs != [] {
      KeyOrder(x, xs[n]);
      if KeyLess(x, xs[n]) {
        InsertSorted(x, xs[..n]);
        var front := Insert(x, xs[..n]);
        forall i | 0 <= i < |front| ensures KeyLess(front[i], xs[n]) {
          assert front[i] in front;
          assert front[i] == x || front[i] in xs[..n];
        }
      } else {
        forall i | 0 <= i < |xs| ensures KeyLess(xs[i], x) {
          if i < n { KeyTransitive(xs[i], xs[n], x); }
        }
      }
    }
  }

  lemma {:induction false} SortSorts<T(!new)>(xs: seq<Stamped<T>>)
    requires DistinctKeys(xs)
    ensures StrictlySorted(SortByKey(xs))
    decreases |xs|
  {
    if xs != [] {
      var front, last := xs[..|xs| - 1], xs[|xs| - 1];
      SortSorts(front);
      var s := SortByKey(front);
      forall k | 0 <= k < |s| ensures !SameKey(s[k], last) {
        assert s[k] in front;
      }
      InsertSorted(last, s);
    }
  }

  lemma {:induction false} AddMissingUnion<T(!new)>(local: seq<Stamped<T>>, remote: seq<Stamped<T>>)
    requires DistinctKeys(local) && Consistent(local, remote) && Consistent(remote, remote)
    ensures DistinctKeys(AddMissing(local, remote))
    ensures forall y :: y in AddMissing(local, remote) <==> y in local || y in remote
    decreases |remote|
  {
    if remote != [] {
      var next := if HasKey(local, remote[0]) then local else local + [remote[0]];
      assert remote == [remote[0]] + remote[1..];
      assert remote[0] in next by {
        if HasKey(local, remote[0]) {
          var k :| 0 <= k < |local| && SameKey(local[k], remote[0]);
          assert local[k] == remote[0];
        }
      }
      assert forall y :: y in next <==> y in local || y == remote[0];
      AddMissingUnion(next, remote[1..]);
    }
  }

  /** Merging is set union, presented in key order. */
  lemma MergeIsUnion<T(!new)>(local: seq<Stamped<T>>, remote: seq<Stamped<T>>)
    requires StrictlySorted(local) && Consistent(local, remote) && Consistent(remote, remote)
    ensures StrictlySorted(MergeItems(local, remote))
    ensures forall y :: y in MergeItems(local, remote) <==> y in local || y in remote
  {
    SortedDistinct(local);
    AddMissingUnion(local, remote);
    SortSorts(AddMissing(local, remote));
  }

  /** A key-ordered list is determined by its elements. */
  lemma {:induction false} SortedUnique<T(!new)>(a: seq<Stamped<T>>, b: seq<Stamped<T>>)
    requires StrictlySorted(a) && StrictlySorted(b)
    requires forall y :: y in a <==> y in b
    ensures a == b
    decreases |a|
  {
    if a == [] {
      assert forall k :: 0 <= k < |b| ==> b[k] in b;
    } else {
      var m, n := |a| - 1, |b| - 1;
      assert a[m] in a;
      assert b != [];
      assert b[n] in b;
      LastIsGreatest(a, b[n]);
      LastIsGreatest(b, a[m]);
      KeyOrder(a[m], b[n]);
      assert a[m] == b[n];
      FrontElements(a);
      FrontElements(b);
      forall y ensures y in a[..m] <==> y in b[..n] {
        assert y in a[..m] <==> y in a && y != a[m];
        assert y in b[..n] <==> y in b && y != b[n];
      }
      SortedUnique(a[..m], b[..n]);
      assert a == a[..m] + [a[m]] && b == b[..n] + [b[n]];
    }
  }

  lemma LastIsGreatest<T>(a: seq<Stamped<T>>, y: Stamped<T>)
    requires StrictlySorted(a) && y in a
    ensures y == a[|a| - 1] || KeyLess(y, a[|a| - 1])
  {
    var i :| 0 <= i < |a| && a[i] == y;
  }

  lemma FrontElements<T>(a: seq<Stamped<T>>)
    requires StrictlySorted(a) && a != []
    ensures forall y :: y in a[..|a| - 1] <==> y in a && y != a[|a| - 1]
  {
    var m := |a| - 1;
    forall y | y in a[..m] ensures y in a && y != a[m] {
      var i :| 0 <= i < m && a[i] == y;
      KeyOrder(a[i], a[m]);
      KeyOrder(y, y);
    }
    forall y | y in a && y != a[m] ensures y in a[..m] {
      var i :| 0 <= i < |a| && a[i] == y;
      assert a[..m][i] == y;
    }
  }
}
