/** Anti-entropy over event logs through a Bloom filter (aeon-vm/src/p2p.rs). */
module Reconcile {
  import opened Words
  import opened EventLog

  const BLOOM_BITS := 8192
  const BLOOM_HASHES := 4

  /** The first eight bytes of the hash of (seed, digest); nothing is assumed about it. */
  type SeededHash = (Digest, nat) -> u64

  /** A filter as it arrives from a peer: its size is part of the message. */
  datatype Filter = Filter(bits: seq<bv8>, bitCount: nat)

  function BloomIndex(h: SeededHash, d: Digest, seed: nat, bitCount: nat): (bit: nat)
    requires bitCount > 0
    ensures bit < bitCount
  {
    h(d, seed) % bitCount
  }

  /** `1 << i` */
  function Mask(i: nat): bv8
    requires i < 8
  {
    if i == 0 then 1 else if i == 1 then 2 else if i == 2 then 4 else if i == 3 then 8
    else if i == 4 then 16 else if i == 5 then 32 else if i == 6 then 64 else 128
  }

  predicate TestByte(x: bv8, i: nat)
    requires i < 8
  {
    x & Mask(i) != 0
  }

  function SetByte(x: bv8, i: nat): bv8
    requires i < 8
  {
    x | Mask(i)
  }

  predicate TestBit(bits: seq<bv8>, bit: nat)
    requires bit < 8 * |bits|
  {
    TestByte(bits[bit / 8], bit % 8)
  }

  function SetBit(bits: seq<bv8>, bit: nat): (r: seq<bv8>)
    requires bit < 8 * |bits|
    ensures |r| == |bits|
  {
    bits[bit / 8 := SetByte(bits[bit / 8], bit % 8)]
  }

  lemma MaskOr(x: bv8, i: nat, j: nat)
    requires i < 8 && j < 8
    ensures TestByte(SetByte(x, i), j) <==> i == j || TestByte(x, j)
  {
  }

  /** Setting a bit sets that bit and no other. */
  lemma SetBitSets(bits: seq<bv8>, bit: nat, other: nat)
    requires bit < 8 * |bits| && other < 8 * |bits|
    ensures TestBit(SetBit(bits, bit), other) <==> other == bit || TestBit(bits, other)
  {
    hide TestByte, SetByte;
    if other / 8 == bit / 8 {
      MaskOr(bits[bit / 8], bit % 8, other % 8);
      assert bit % 8 == other % 8 <==> bit == other;
    } else {
      assert SetBit(bits, bit)[other / 8] == bits[other / 8];
    }
  }

  /** One of the first `seeds` positions of `d` is `bit`. */
  ghost predicate Marks(h: SeededHash, d: Digest, seeds: nat, bit: nat, bitCount: nat)
    requires bitCount > 0
  {
    exists seed: nat :: seed < seeds && BloomIndex(h, d, seed, bitCount) == bit
  }

  ghost predicate Covered(h: SeededHash, known: set<Digest>, bit: nat) {
    exists d :: d in known && Marks(h, d, BLOOM_HASHES, bit, BLOOM_BITS)
  }

  /** The filter of a set: exactly the bits some member marks. */
  ghost predicate IsFilterOf(f: Filter, h: SeededHash, known: set<Digest>) {
    && f.bitCount == BLOOM_BITS && |f.bits| == BLOOM_BITS / 8
    && forall bit :: 0 <= bit < BLOOM_BITS ==> (TestBit(f.bits, bit) <==> Covered(h, known, bit))
  }

  /** The bit exists and is set. */
  predicate SetAt(f: Filter, bit: nat) { bit < 8 * |f.bits| && TestBit(f.bits, bit) }

  /** All positions of `d` are set. */
  predicate Passes(h: SeededHash, f: Filter, d: Digest) {
    f.bitCount > 0 && forall seed: nat :: seed < BLOOM_HASHES ==> SetAt(f, BloomIndex(h, d, seed, f.bitCount))
  }

  /** A received filter may count more bits than it brings, or none. Looking up `d` works exactly when each position it comes
      to, all those before being set, exists; otherwise it panics. */
  ghost predicate CanLookUp(h: SeededHash, f: Filter, d: Digest) {
    f.bitCount > 0 &&
    forall seed: nat :: seed < BLOOM_HASHES && (forall k: nat :: k < seed ==> SetAt(f, BloomIndex(h, d, k, f.bitCount))) ==>
      BloomIndex(h, d, seed, f.bitCount) < 8 * |f.bits|
  }

  /** Inserting `d` works exactly when all its positions exist. */
  predicate CanInsert(h: SeededHash, f: Filter, d: Digest) {
    f.bitCount > 0 && forall seed: nat :: seed < BLOOM_HASHES ==> BloomIndex(h, d, seed, f.bitCount) < 8 * |f.bits|
  }

  lemma NoFalseNegatives(h: SeededHash, f: Filter, known: set<Digest>, d: Digest)
    requires IsFilterOf(f, h, known) && d in known
    ensures Passes(h, f, d)
  {
    forall seed: nat | seed < BLOOM_HASHES ensures SetAt(f, BloomIndex(h, d, seed, f.bitCount)) {
      assert Marks(h, d, BLOOM_HASHES, BloomIndex(h, d, seed, BLOOM_BITS), BLOOM_BITS);
    }
  }

  class EventGSet {
    var known: set<Digest>

    constructor ()
      ensures known == {}
    {
      known := {};
    }

    method Insert(d: Digest)
      modifies this
      ensures known == old(known) + {d}
    {
      known := known + {d};
    }

    static method FromLog(log: Log) returns (s: EventGSet)
      ensures fresh(s) && s.known == Hashes(log)
    {
      s := new EventGSet();
      var i := 0;
      while i < |log|
        invariant 0 <= i <= |log| && s.known == Hashes(log[..i])
      {
        assert log[..i + 1] == log[..i] + [log[i]];
        s.Insert(log[i].selfHash);
        i := i + 1;
      }
      assert log[..i] == log;
    }
  }

  function Hashes(log: Log): set<Digest> {
    set e | e in log :: e.selfHash
  }

  class EventBloom {
    var bits: seq<bv8>
    const bitCount: nat
    const hash: SeededHash

    function View(): Filter
      reads this
    {
      Filter(bits, bitCount)
    }

    constructor Received(f: Filter, hash: SeededHash)
      ensures View() == f && this.hash == hash
    {
      bits, bitCount, this.hash := f.bits, f.bitCount, hash;
    }

    static method FromGSet(hash: SeededHash, set_: EventGSet) returns (b: EventBloom)
      ensures fresh(b) && b.hash == hash && IsFilterOf(b.View(), hash, set_.known)
    {
      b := new EventBloom.Received(Filter(seq(BLOOM_BITS / 8, _ => 0), BLOOM_BITS), hash);
      var left := set_.known;
      while left != {}
        invariant left <= set_.known && fresh(b) && b.hash == hash
        invariant IsFilterOf(b.View(), hash, set_.known - left)
        decreases left
      {
        var d :| d in left;
        ghost var before := b.View();
        b.Insert(d);
        FilterGrows(hash, before, b.View(), set_.known - left, d);
        left := left - {d};
        assert set_.known - left == (set_.known - (left + {d})) + {d};
      }
      assert set_.known - left == set_.known;
    }

    /** Sets the positions of `d` and no other bit. */
    method Insert(d: Digest)
      requires CanInsert(hash, View(), d)
      modifies this`bits
      ensures |bits| == |old(bits)|
      ensures forall bit :: 0 <= bit < 8 * |bits| ==>
                (TestBit(bits, bit) <==> TestBit(old(bits), bit) || Marks(hash, d, BLOOM_HASHES, bit, bitCount))
    {
      var seed := 0;
      while seed < BLOOM_HASHES
        invariant 0 <= seed <= BLOOM_HASHES && |bits| == |old(bits)|
        invariant forall bit :: 0 <= bit < 8 * |bits| ==>
                    (TestBit(bits, bit) <==> TestBit(old(bits), bit) || Marks(hash, d, seed, bit, bitCount))
      {
        var bit := BloomIndex(hash, d, seed, bitCount);
        forall other | 0 <= other < 8 * |bits|
          ensures TestBit(SetBit(bits, bit), other) <==> TestBit(old(bits), other) || Marks(hash, d, seed + 1, other, bitCount)
        {
          SetBitSets(bits, bit, other);
          MarksStep(hash, d, seed, other, bitCount);
        }
        bits := SetBit(bits, bit);
        seed := seed + 1;
      }
    }

    method MightContain(d: Digest) returns (r: bool)
      requires CanLookUp(hash, View(), d)
      ensures r <==> Passes(hash, View(), d)
    {
      var seed := 0;
      while seed < BLOOM_HASHES
        invariant 0 <= seed <= BLOOM_HASHES
        invariant forall k: nat :: k < seed ==> SetAt(View(), BloomIndex(hash, d, k, bitCount))
      {
        if !TestBit(bits, BloomIndex(hash, d, seed, bitCount)) {
          return false;
        }
        seed := seed + 1;
      }
      r := true;
    }
  }

  lemma MarksStep(h: SeededHash, d: Digest, seed: nat, bit: nat, bitCount: nat)
    requires bitCount > 0
    ensures Marks(h, d, seed + 1, bit, bitCount) <==> Marks(h, d, seed, bit, bitCount) || BloomIndex(h, d, seed, bitCount) == bit
  {
    if Marks(h, d, seed, bit, bitCount) {
      var s: nat :| s < seed && BloomIndex(h, d, s, bitCount) == bit;
      assert s < seed + 1;
    }
  }

  /** Inserting a hash into the filter of a set gives the filter of the larger set. */
  lemma FilterGrows(h: SeededHash, f: Filter, g: Filter, known: set<Digest>, d: Digest)
    requires IsFilterOf(f, h, known) && g.bitCount == f.bitCount && |g.bits| == |f.bits|
    requires forall bit :: 0 <= bit < BLOOM_BITS ==>
               (TestBit(g.bits, bit) <==> TestBit(f.bits, bit) || Marks(h, d, BLOOM_HASHES, bit, BLOOM_BITS))
    ensures IsFilterOf(g, h, known + {d})
  {
    forall bit | 0 <= bit < BLOOM_BITS ensures TestBit(g.bits, bit) <==> Covered(h, known + {d}, bit) {
      CoveredAdd(h, known, d, bit);
    }
  }

  lemma CoveredAdd(h: SeededHash, known: set<Digest>, d: Digest, bit: nat)
    ensures Covered(h, known + {d}, bit) <==> Covered(h, known, bit) || Marks(h, d, BLOOM_HASHES, bit, BLOOM_BITS)
  {
    if Covered(h, known, bit) {
      var e :| e in known && Marks(h, e, BLOOM_HASHES, bit, BLOOM_BITS);
      assert e in known + {d};
    }
    if Marks(h, d, BLOOM_HASHES, bit, BLOOM_BITS) {
      assert d in known + {d};
    }
  }

  /** The entries of `local` whose hash does not pass. */
  ghost function Missing(pass: Digest -> bool, local: Log): Log
    decreases |local|
  {
    if local == [] then []
    else (if pass(local[0].selfHash) then [] else [local[0]]) + Missing(pass, local[1..])
  }

  /** The test a peer's filter amounts to. */
  ghost function Test(h: SeededHash, f: Filter): Digest -> bool {
    d => Passes(h, f, d)
  }

  lemma MissingStep(pass: Digest -> bool, local: Log, i: nat)
    requires i <= |local|
    ensures i == |local| ==> Missing(pass, local[i..]) == []
    ensures i < |local| ==> Missing(pass, local[i..])
                            == (if pass(local[i].selfHash) then [] else [local[i]]) + Missing(pass, local[i + 1..])
  {
    if i < |local| {
      assert local[i..][1..] == local[i + 1..];
    }
  }

  lemma Regroup(a: Log, b: Log, c: Log)
    ensures a + (b + c) == a + b + c && a + [] == a && [] + c == c
  {
  }

  method MissingEvents(local: Log, bloom: EventBloom) returns (r: Log)
    requires forall e :: e in local ==> CanLookUp(bloom.hash, bloom.View(), e.selfHash)
    ensures r == Missing(Test(bloom.hash, bloom.View()), local)
  {
    hide Missing, Passes, CanLookUp;
    ghost var pass := Test(bloom.hash, bloom.View());
    r := [];
    var i := 0;
    assert local[0..] == local;
    Regroup([], [], Missing(pass, local));
    while i < |local|
      invariant 0 <= i <= |local|
      invariant r + Missing(pass, local[i..]) == Missing(pass, local)
    {
      MissingStep(pass, local, i);
      var passes := bloom.MightContain(local[i].selfHash);
      Regroup(r, if passes then [] else [local[i]], Missing(pass, local[i + 1..]));
      if !passes {
        r := r + [local[i]];
      }
      i := i + 1;
    }
    MissingStep(pass, local, i);
    Regroup(r, [], []);
  }

  // ----- one round of reconciliation -----

  /** The remote extends its log by what a peer holding `local` offers it. */
  ghost function Round(pass: Digest -> bool, remote: Log, local: Log): (Log, Result<(), ExtendError>) {
    Extend(remote, Missing(pass, local))
  }

  /** All hashes of the first `n` entries pass. */
  ghost predicate AllPass(pass: Digest -> bool, local: Log, n: nat)
    requires n <= |local|
  {
    forall i :: 0 <= i < n ==> pass(local[i].selfHash)
  }

  /** Entry `i` is unknown to the remote but its hash passes. */
  ghost predicate FalsePositive(pass: Digest -> bool, remote: Log, local: Log, i: nat)
    requires i < |local|
  {
    i >= |remote| && pass(local[i].selfHash)
  }

  /** How far one round gets: up to the first false positive. */
  ghost function Reach(pass: Digest -> bool, remote: Log, local: Log, n: nat): (k: nat)
    requires |remote| <= n <= |local|
    ensures n <= k <= |local|
    ensures forall i :: n <= i < k ==> !FalsePositive(pass, remote, local, i)
    ensures k < |local| ==> FalsePositive(pass, remote, local, k)
    decreases |local| - n
  {
    if n == |local| || FalsePositive(pass, remote, local, n) then n else Reach(pass, remote, local, n + 1)
  }

  lemma {:induction false} MissingSkipsKnown(pass: Digest -> bool, local: Log, n: nat, i: nat)
    requires i <= n <= |local| && AllPass(pass, local, n)
    ensures Missing(pass, local[i..]) == Missing(pass, local[n..])
    decreases n - i
  {
    if i < n {
      assert local[i..][1..] == local[i + 1..];
      MissingSkipsKnown(pass, local, n, i + 1);
    }
  }

  lemma TipDepth(log: Log, n: nat)
    requires Verified(log) && n <= |log|
    ensures Depth(Tip(log[..n])) == n
  {
    if n > 0 {
      ChainDepth(log, n - 1);
    }
  }

  /** An entry fits behind a prefix of its log only at its own place. */
  lemma OnlyInPlace(local: Log, k: nat, j: nat, rest: Log)
    requires Verified(local) && k <= |local| && j < |local| && j != k
    ensures Extend(local[..k], [local[j]] + rest) == (local[..k], Err(DoesNotExtend))
  {
    TipDepth(local, j);
    TipDepth(local, k);
    assert local[j].prevHash == Tip(local[..j]);
  }

  /** Past a gap nothing fits any more: every later entry names a later hash. */
  lemma {:induction false} GapStops(pass: Digest -> bool, local: Log, k: nat, j: nat)
    requires Verified(local) && k < j <= |local|
    ensures Extend(local[..k], Missing(pass, local[j..])).0 == local[..k]
    decreases |local| - j
  {
    hide Extend, Verified;
    MissingStep(pass, local, j);
    if j == |local| {
      NothingToExtend(local[..k]);
    } else {
      var rest := Missing(pass, local[j + 1..]);
      Regroup([], [], rest);
      OnlyInPlace(local, k, j, rest);
      GapStops(pass, local, k, j + 1);
    }
  }

  /** Offered an entry it already has, the remote stops there and then. */
  lemma {:induction false} KnownStops(pass: Digest -> bool, local: Log, k: nat, i: nat)
    requires Verified(local) && i <= k <= |local| && exists j :: i <= j < k && !pass(local[j].selfHash)
    ensures Extend(local[..k], Missing(pass, local[i..])) == (local[..k], Err(DoesNotExtend))
    decreases k - i
  {
    hide Extend, Verified;
    MissingStep(pass, local, i);
    var rest := Missing(pass, local[i + 1..]);
    Regroup([], [], rest);
    OnlyInPlace(local, k, i, rest);
    if pass(local[i].selfHash) {
      KnownStops(pass, local, k, i + 1);
    }
  }

  lemma NothingToExtend(log: Log)
    ensures Extend(log, []) == (log, Ok(()))
  {
  }

  /** The next entry of a verified log is always accepted. */
  lemma ExtendStep(local: Log, n: nat, rest: Log)
    requires Verified(local) && n < |local|
    ensures Extend(local[..n], [local[n]] + rest) == Extend(local[..n + 1], rest)
  {
    assert local[n].prevHash == Tip(local[..n]) && SelfHashOk(local[n]);
    assert local[..n] + [local[n]] == local[..n + 1];
    assert ([local[n]] + rest)[0] == local[n] && ([local[n]] + rest)[1..] == rest;
  }

  lemma {:induction false} RoundReaches(pass: Digest -> bool, remote: Log, local: Log, n: nat)
    requires remote <= local && Verified(local) && |remote| <= n <= |local|
    ensures Extend(local[..n], Missing(pass, local[n..])).0 == local[..Reach(pass, remote, local, n)]
    ensures Reach(pass, remote, local, n) == |local| ==> Extend(local[..n], Missing(pass, local[n..])).1.Ok?
    decreases |local| - n
  {
    hide Extend, Missing, Verified, SelfHashOk;
    MissingStep(pass, local, n);
    if n == |local| {
      NothingToExtend(local[..n]);
    } else {
      var rest := Missing(pass, local[n + 1..]);
      if FalsePositive(pass, remote, local, n) {
        Regroup([], [], rest);
        GapStops(pass, local, n, n + 1);
      } else {
        ExtendStep(local, n, rest);
        RoundReaches(pass, remote, local, n + 1);
      }
    }
  }

  /** Whatever test selects the entries offered, a stale, foreign or forged filter included: if the remote's own hashes all
      pass, one round takes it to the local prefix before the first false positive; if one does not, nothing changes. */
  lemma RoundReachesPrefix(pass: Digest -> bool, remote: Log, local: Log)
    requires Verified(local) && remote <= local
    ensures Round(pass, remote, local).0
            == if AllPass(pass, local, |remote|) then local[..Reach(pass, remote, local, |remote|)] else remote
    ensures !AllPass(pass, local, |remote|) ==> Round(pass, remote, local).1 == Err(DoesNotExtend)
    ensures AllPass(pass, local, |remote|) && Reach(pass, remote, local, |remote|) == |local| ==> Round(pass, remote, local).1.Ok?
  {
    hide FalsePositive, Extend, Verified, Missing, Reach;
    assert local[0..] == local && local[..|remote|] == remote;
    if AllPass(pass, local, |remote|) {
      MissingSkipsKnown(pass, local, |remote|, 0);
      RoundReaches(pass, remote, local, |remote|);
    } else {
      KnownStops(pass, local, |remote|, 0);
    }
  }

  /** Hence, for every test at all, the remote stays a verified prefix of the local log, and one round completes a proper
      prefix exactly when the test tells known from unknown without a mistake. */
  lemma AnyTestIsSafe(pass: Digest -> bool, remote: Log, local: Log)
    requires Verified(local) && remote <= local
    ensures Verified(Round(pass, remote, local).0)
    ensures remote <= Round(pass, remote, local).0 <= local
    ensures remote != local ==>
              (Round(pass, remote, local).0 == local
               <==> forall i :: 0 <= i < |local| ==> (pass(local[i].selfHash) <==> i < |remote|))
  {
    hide Verified, Reach, Round;
    var k := Reach(pass, remote, local, |remote|);
    RoundReachesPrefix(pass, remote, local);
    VerifiedPrefix(local, k);
    VerifiedPrefix(local, |remote|);
    assert |local[..k]| == k && (k == |local| ==> local[..k] == local);
    assert local[..k][..|remote|] == remote && local[..|remote|] == remote;
    NoMistake(pass, remote, local);
  }

  lemma NoMistake(pass: Digest -> bool, remote: Log, local: Log)
    requires remote <= local
    ensures (forall i :: 0 <= i < |local| ==> (pass(local[i].selfHash) <==> i < |remote|))
            <==> AllPass(pass, local, |remote|) && Reach(pass, remote, local, |remote|) == |local|
  {
    var k := Reach(pass, remote, local, |remote|);
    assert k < |local| ==> FalsePositive(pass, remote, local, k);
    forall i | |remote| <= i < k ensures !pass(local[i].selfHash) {
      assert !FalsePositive(pass, remote, local, i);
    }
  }

  /** Through the filter of the remote's own hashes one round, Ok or Err, keeps the remote verified and a prefix, and makes
      it equal the local log exactly when no entry it lacks is a Bloom false positive. */
  lemma RoundIsSound(h: SeededHash, f: Filter, remote: Log, local: Log)
    requires Verified(local) && remote <= local && IsFilterOf(f, h, Hashes(remote))
    ensures var (next, r) := Round(Test(h, f), remote, local);
            && Verified(next) && remote <= next <= local
            && (next == local <==> forall i :: |remote| <= i < |local| ==> !Passes(h, f, local[i].selfHash))
            && (next == local ==> r.Ok?)
  {
    hide Verified, Reach, Round, Passes, TestBit, IsFilterOf;
    var pass := Test(h, f);
    forall i | 0 <= i < |remote| ensures pass(local[i].selfHash) {
      assert local[i] == remote[i] && remote[i] in remote;
      NoFalseNegatives(h, f, Hashes(remote), local[i].selfHash);
    }
    RoundReachesPrefix(pass, remote, local);
    AnyTestIsSafe(pass, remote, local);
    var k := Reach(pass, remote, local, |remote|);
    assert |local[..k]| == k;
    assert k < |local| ==> pass(local[k].selfHash);
  }

  // ----- bits and empty sets -----

  /** Bit `i` of a byte is `1 << i`. */
  lemma MaskIsShift(i: nat)
    requires i < 8
    ensures Mask(i) == (1 as bv8) << i
  {
  }

  /** Four positions, each a hash of the digest under its own seed reduced to the bit count, have to be set. */
  lemma PassesMeans(h: SeededHash, f: Filter, d: Digest)
    requires f.bitCount > 0
    ensures Passes(h, f, d) <==> SetAt(f, h(d, 0) % f.bitCount) && SetAt(f, h(d, 1) % f.bitCount)
                                 && SetAt(f, h(d, 2) % f.bitCount) && SetAt(f, h(d, 3) % f.bitCount)
  {
    assert BloomIndex(h, d, 0, f.bitCount) == h(d, 0) % f.bitCount && BloomIndex(h, d, 1, f.bitCount) == h(d, 1) % f.bitCount;
    assert BloomIndex(h, d, 2, f.bitCount) == h(d, 2) % f.bitCount && BloomIndex(h, d, 3, f.bitCount) == h(d, 3) % f.bitCount;
    if Passes(h, f, d) {
      assert SetAt(f, BloomIndex(h, d, 0, f.bitCount)) && SetAt(f, BloomIndex(h, d, 1, f.bitCount));
      assert SetAt(f, BloomIndex(h, d, 2, f.bitCount)) && SetAt(f, BloomIndex(h, d, 3, f.bitCount));
    }
  }

  /** The filter of the empty set has 8192 bits and passes nothing. */
  lemma EmptyPassesNothing(h: SeededHash, f: Filter, d: Digest)
    requires IsFilterOf(f, h, {})
    ensures f.bitCount == 8192 && |f.bits| == 1024 && !Passes(h, f, d)
  {
    PassesMeans(h, f, d);
    assert !Covered(h, {}, h(d, 0) % f.bitCount);
  }

  /** So an empty remote always catches up in one round. */
  lemma EmptyRemoteCatchesUp(h: SeededHash, f: Filter, local: Log)
    requires Verified(local) && IsFilterOf(f, h, {})
    ensures Round(Test(h, f), [], local) == (local, Ok(()))
  {
    hide Verified, Passes, IsFilterOf, Round;
    assert Hashes([]) == {};
    forall i | 0 <= i < |local| ensures !Passes(h, f, local[i].selfHash) {
      EmptyPassesNothing(h, f, local[i].selfHash);
    }
    RoundIsSound(h, f, [], local);
    assert Round(Test(h, f), [], local).1.value == ();
  }
}
