/** The acceptance window and the nonce memory of the sync agent (aeon-agent/src/engine.rs, aeon-agent/src/state.rs). */
module Nonces {
  import opened Words

  /** Identities, keys and messages enter only through equality; `genuine` is the outcome of the length, key-hash and
      signature checks, which read nothing but the envelope. */
  type Identity = nat
  type PublicKey = nat

  datatype Envelope = Envelope(signer: Identity, at: u64, nonce: u64, publicKey: PublicKey, genuine: bool)

  /** The map key is the text `by:nonce`, which determines both. */
  datatype NonceKey = NonceKey(signer: Identity, nonce: u64)

  datatype State = State(seen: map<NonceKey, u64>, trusted: map<Identity, PublicKey>)

  const WINDOW := 300_000
  const NONCE_TTL := 600_000

  function KeyOf(e: Envelope): NonceKey { NonceKey(e.signer, e.nonce) }

  /** Additions wrap; a sum that wrapped only makes the envelope look older or newer than it may be. */
  predicate InWindow(e: Envelope, now: u64, window: u64) {
    WrapAdd(e.at, window) >= now && e.at <= WrapAdd(now, window)
  }

  function Cleanup(seen: map<NonceKey, u64>, now: u64, ttl: u64): map<NonceKey, u64> {
    map k | k in seen && WrapAdd(seen[k], ttl) >= now :: seen[k]
  }

  function TrustKey(trusted: map<Identity, PublicKey>, id: Identity, key: PublicKey): (map<Identity, PublicKey>, bool) {
    if id in trusted then (trusted, trusted[id] == key) else (trusted[id := key], true)
  }

  /** The verdict, and the state it leaves: refusals before the lock change nothing, later ones keep the cleanup. */
  function Verify(st: State, e: Envelope, now: u64, window: u64, ttl: u64): (State, bool) {
    if !InWindow(e, now, window) || !e.genuine then (st, false)
    else
      var seen := Cleanup(st.seen, now, ttl);
      var (trusted, ok) := TrustKey(st.trusted, e.signer, e.publicKey);
      if !ok || KeyOf(e) in seen then (State(seen, trusted), false)
      else (State(seen[KeyOf(e) := now], trusted), true)
  }

  class SyncState {
    var seenNonces: map<NonceKey, u64>
    var trustedKeys: map<Identity, PublicKey>

    function View(): State
      reads this
    {
      State(seenNonces, trustedKeys)
    }

    constructor ()
      ensures View() == State(map[], map[])
    {
      seenNonces, trustedKeys := map[], map[];
    }

    method CleanupNonces(now: u64, ttl: u64)
      modifies this`seenNonces
      ensures seenNonces == Cleanup(old(seenNonces), now, ttl)
    {
      var kept: map<NonceKey, u64>, left := map[], seenNonces.Keys;
      while left != {}
        invariant left <= seenNonces.Keys
        invariant kept == Cleanup(map k | k in seenNonces && k !in left :: seenNonces[k], now, ttl)
        decreases left
      {
        var k :| k in left;
        if WrapAdd(seenNonces[k], ttl) >= now {
          kept := kept[k := seenNonces[k]];
        }
        left := left - {k};
      }
      assert (map k | k in seenNonces && k !in left :: seenNonces[k]) == seenNonces;
      seenNonces := kept;
    }

    method Trust(id: Identity, key: PublicKey) returns (ok: bool)
      modifies this`trustedKeys
      ensures (trustedKeys, ok) == TrustKey(old(trustedKeys), id, key)
    {
      if id in trustedKeys {
        return trustedKeys[id] == key;
      }
      trustedKeys := trustedKeys[id := key];
      ok := true;
    }

    method VerifyEnvelope(e: Envelope, now: u64) returns (ok: bool)
      modifies this
      ensures (View(), ok) == Verify(old(View()), e, now, WINDOW, NONCE_TTL)
    {
      if WrapAdd(e.at, WINDOW) < now || e.at > WrapAdd(now, WINDOW) {
        return false;
      }
      if !e.genuine {
        return false;
      }
      CleanupNonces(now, NONCE_TTL);
      var trusted := Trust(e.signer, e.publicKey);
      if !trusted {
        return false;
      }
      if KeyOf(e) in seenNonces {
        return false;
      }
      seenNonces := seenNonces[KeyOf(e) := now];
      ok := true;
    }
  }

  // ----- runs -----

  /** Envelopes arrive at clock readings; a hello only offers a key to trust. */
  datatype Arrival = Received(env: Envelope, now: u64) | Hello(id: Identity, key: PublicKey)

  function Handle(st: State, a: Arrival, window: u64, ttl: u64): (State, bool) {
    match a
    case Received(e, now) => Verify(st, e, now, window, ttl)
    case Hello(id, key) => (st.(trusted := TrustKey(st.trusted, id, key).0), false)
  }

  function After(st: State, run: seq<Arrival>, window: u64, ttl: u64): State
    decreases |run|
  {
    if run == [] then st else Handle(After(st, run[..|run| - 1], window, ttl), run[|run| - 1], window, ttl).0
  }

  /** The verdict on arrival `i` of the run. */
  function Accepted(st: State, run: seq<Arrival>, i: nat, window: u64, ttl: u64): bool
    requires i < |run|
  {
    Handle(After(st, run[..i], window, ttl), run[i], window, ttl).1
  }

  ghost predicate ClockNeverGoesBack(run: seq<Arrival>) {
    forall i, j :: 0 <= i < j < |run| && run[i].Received? && run[j].Received? ==> run[i].now <= run[j].now
  }

  /** Two accepted arrivals carry the same signer, nonce and time. */
  ghost predicate Replays(st: State, run: seq<Arrival>, i: nat, j: nat, window: u64, ttl: u64) {
    && i < j < |run| && run[i].Received? && run[j].Received?
    && KeyOf(run[i].env) == KeyOf(run[j].env) && run[i].env.at == run[j].env.at
    && Accepted(st, run, i, window, ttl) && Accepted(st, run, j, window, ttl)
  }

  /** Far enough from 2^64 for no sum to wrap: true of millisecond clocks for the next half billion years. */
  ghost predicate ClockSmall(run: seq<Arrival>, window: u64, ttl: u64) {
    forall i :: 0 <= i < |run| && run[i].Received? ==> run[i].now + 2 * window < TWO64 && run[i].now + ttl < TWO64
  }

  lemma NonceKeptOnce(st: State, a: Arrival, key: NonceKey, t: u64, window: u64, ttl: u64)
    requires key in st.seen && st.seen[key] == t && t + ttl < TWO64
    requires a.Received? ==> a.now <= t + ttl
    ensures key in Handle(st, a, window, ttl).0.seen && Handle(st, a, window, ttl).0.seen[key] == t
  {
  }

  lemma AcceptedIsMarked(st: State, e: Envelope, now: u64, window: u64, ttl: u64)
    requires Verify(st, e, now, window, ttl).1
    ensures KeyOf(e) in Verify(st, e, now, window, ttl).0.seen && Verify(st, e, now, window, ttl).0.seen[KeyOf(e)] == now
  {
  }

  /** An accepted nonce stays remembered, under its first time, while the clock is within `ttl` of that time. */
  lemma {:induction false} NonceKept(st: State, run: seq<Arrival>, i: nat, k: nat, window: u64, ttl: u64)
    requires i < k <= |run| && run[i].Received? && Accepted(st, run, i, window, ttl)
    requires run[i].now + ttl < TWO64
    requires forall m :: i < m < k && run[m].Received? ==> run[m].now <= run[i].now + ttl
    ensures KeyOf(run[i].env) in After(st, run[..k], window, ttl).seen
    ensures After(st, run[..k], window, ttl).seen[KeyOf(run[i].env)] == run[i].now
    decreases k
  {
    hide Verify;
    assert run[..k][..k - 1] == run[..k - 1];
    if k > i + 1 {
      NonceKept(st, run, i, k - 1, window, ttl);
      NonceKeptOnce(After(st, run[..k - 1], window, ttl), run[k - 1], KeyOf(run[i].env), run[i].now, window, ttl);
    } else {
      AcceptedIsMarked(After(st, run[..i], window, ttl), run[i].env, run[i].now, window, ttl);
    }
  }

  /** What acceptance says about the arrival and the state before it. */
  lemma AcceptedMeans(st: State, run: seq<Arrival>, i: nat, window: u64, ttl: u64)
    requires i < |run| && run[i].Received? && Accepted(st, run, i, window, ttl)
    requires run[i].now + window < TWO64 && run[i].now + 2 * window < TWO64
    ensures run[i].env.at <= run[i].now + window && run[i].now <= run[i].env.at + window
    ensures KeyOf(run[i].env) !in Cleanup(After(st, run[..i], window, ttl).seen, run[i].now, ttl)
  {
    hide After, Cleanup;
  }

  /** A lifetime of two windows covers the whole time an envelope can be accepted, boundaries included. */
  lemma NoReplay(st: State, run: seq<Arrival>, i: nat, j: nat, window: u64, ttl: u64)
    requires ttl >= 2 * window && ClockNeverGoesBack(run) && ClockSmall(run, window, ttl)
    ensures !Replays(st, run, i, j, window, ttl)
  {
    hide Accepted, After;
    if Replays(st, run, i, j, window, ttl) {
      AcceptedMeans(st, run, i, window, ttl);
      AcceptedMeans(st, run, j, window, ttl);
      assert run[j].now <= run[i].now + ttl;
      NonceKept(st, run, i, j, window, ttl);
    }
  }

  /** One genuine envelope, stamped as far ahead as allowed, offered at once and again at its last moment. */
  function LateReplay(window: u64): seq<Arrival>
    requires 4 * window < TWO64
  {
    var e := Envelope(0, window, 0, 0, true);
    [Received(e, 0), Received(e, 2 * window)]
  }

  lemma ShorterLifetimeReplays(window: u64, ttl: u64)
    requires ttl < 2 * window && 4 * window < TWO64
    ensures var run := LateReplay(window);
            ClockNeverGoesBack(run) && ClockSmall(run, window, ttl)
            && Replays(State(map[], map[]), run, 0, 1, window, ttl)
  {
    var run, st := LateReplay(window), State(map[], map[]);
    var first := State(map[NonceKey(0, 0) := 0], map[0 := 0]);
    assert run[..0] == [] && After(st, [], window, ttl) == st;
    assert Cleanup(map[], 0, ttl) == map[];
    assert Handle(st, run[0], window, ttl) == (first, true);
    assert run[..1] == [run[0]] && [run[0]][..0] == [];
    assert After(st, run[..1], window, ttl) == first;
    assert NonceKey(0, 0) !in Cleanup(first.seen, 2 * window, ttl);
    assert Handle(first, run[1], window, ttl).1;
  }

  ghost predicate ReplayFree(st: State, window: u64, ttl: u64) {
    forall run, i, j :: ClockNeverGoesBack(run) && ClockSmall(run, window, ttl) ==> !Replays(st, run, i, j, window, ttl)
  }

  /** No run ever accepts an envelope twice exactly when the lifetime is at least two windows. */
  lemma LifetimeExactlyTwoWindows(window: u64, ttl: u64)
    requires 4 * window < TWO64
    ensures ReplayFree(State(map[], map[]), window, ttl) <==> ttl >= 2 * window
  {
    var st := State(map[], map[]);
    if ttl >= 2 * window {
      forall run, i, j | ClockNeverGoesBack(run) && ClockSmall(run, window, ttl)
        ensures !Replays(st, run, i, j, window, ttl)
      {
        NoReplay(st, run, i, j, window, ttl);
      }
    } else {
      ShorterLifetimeReplays(window, ttl);
    }
  }

  /** The constants in use meet the bound with nothing to spare. */
  lemma EnvelopesAcceptedOnce(st: State, run: seq<Arrival>, i: nat, j: nat)
    requires ClockNeverGoesBack(run) && ClockSmall(run, WINDOW, NONCE_TTL)
    ensures !Replays(st, run, i, j, WINDOW, NONCE_TTL)
    ensures !ReplayFree(State(map[], map[]), WINDOW, NONCE_TTL - 1)
  {
    NoReplay(st, run, i, j, WINDOW, NONCE_TTL);
    LifetimeExactlyTwoWindows(WINDOW, NONCE_TTL - 1);
  }

  /** A trusted key, once stored, is never replaced, and nothing signed with another key is accepted. */
  lemma {:induction false} TrustIsFirstUse(st: State, run: seq<Arrival>, id: Identity, window: u64, ttl: u64)
    requires id in st.trusted
    ensures id in After(st, run, window, ttl).trusted && After(st, run, window, ttl).trusted[id] == st.trusted[id]
    ensures forall i :: 0 <= i < |run| && run[i].Received? && run[i].env.signer == id && Accepted(st, run, i, window, ttl)
                        ==> run[i].env.publicKey == st.trusted[id]
    decreases |run|
  {
    if run != [] {
      var front := run[..|run| - 1];
      TrustIsFirstUse(st, front, id, window, ttl);
      forall i | 0 <= i < |run| && run[i].Received? && run[i].env.signer == id && Accepted(st, run, i, window, ttl)
        ensures run[i].env.publicKey == st.trusted[id]
      {
        if i < |front| {
          assert front[i] == run[i] && front[..i] == run[..i];
          assert Accepted(st, front, i, window, ttl);
        }
      }
    }
  }

  // ----- one envelope, in full -----

  /** A recorded nonce still blocks. */
  predicate Blocks(st: State, key: NonceKey, now: u64) { key in st.seen && (st.seen[key] + 600_000) % TWO64 >= now }

  /** An envelope is accepted exactly when it is at most 300,000 ms old and at most 300,000 ms early, genuine, signed with the key
      trusted for its signer if there is one, and its nonce does not block. */
  lemma AcceptedExactly(st: State, e: Envelope, now: u64)
    ensures Verify(st, e, now, WINDOW, NONCE_TTL).1
            <==> (e.at + 300_000) % TWO64 >= now && e.at <= (now + 300_000) % TWO64 && e.genuine
                 && (e.signer in st.trusted ==> st.trusted[e.signer] == e.publicKey)
                 && !Blocks(st, NonceKey(e.signer, e.nonce), now)
  {
  }

  /** What it leaves behind: nothing when it is out of time or not genuine; else the nonces that still block, its own at the
      present time if it was accepted, and its key if its signer had none. */
  lemma VerdictLeaves(st: State, e: Envelope, now: u64)
    ensures var (next, ok) := Verify(st, e, now, WINDOW, NONCE_TTL);
            if (e.at + 300_000) % TWO64 < now || e.at > (now + 300_000) % TWO64 || !e.genuine then next == st
            else
              && next.trusted == (if e.signer in st.trusted then st.trusted else st.trusted[e.signer := e.publicKey])
              && (forall k :: k in next.seen <==> Blocks(st, k, now) || (ok && k == NonceKey(e.signer, e.nonce)))
              && (forall k :: k in next.seen ==>
                    next.seen[k] == if ok && k == NonceKey(e.signer, e.nonce) then now else st.seen[k])
  {
  }
}
