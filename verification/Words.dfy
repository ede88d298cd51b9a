/** Machine words of a 64-bit target, and the two result types used everywhere. */
module Words {

  datatype Option<+T> = None | Some(value: T)

  datatype Result<+T, +E> = Ok(value: T) | Err(error: E)

  const TWO8 := 0x100
  const TWO32 := 0x1_0000_0000
  const TWO63 := 0x8000_0000_0000_0000
  const TWO64 := 0x1_0000_0000_0000_0000

  type u8 = x: int | 0 <= x < TWO8
  type u64 = x: int | 0 <= x < TWO64
  /** `usize` is 64 bits wide, so converting a `u64` to it never fails. */
  type usize = u64
  type isize = x: int | -TWO63 <= x < TWO63

  function WrapAdd(a: u64, b: u64): u64 { (a + b) % TWO64 }
  function WrapSub(a: u64, b: u64): u64 { (a - b) % TWO64 }
  function WrapMul(a: u64, b: u64): u64 { (a * b) % TWO64 }

  /** `(pc as isize + off) as usize`: two's complement, so addition modulo 2^64. */
  function Offset(pc: usize, off: isize): usize { (pc + off) % TWO64 }

  /** `x as u8` */
  function LowByte(x: u64): u8 { x % TWO8 }

  /** Little-endian bytes of `x`, `n` of them. */
  function ToLe(x: nat, n: nat): (bs: seq<u8>)
    ensures |bs| == n
  {
    if n == 0 then [] else [x % TWO8] + ToLe(x / TWO8, n - 1)
  }

  function FromLe(bs: seq<u8>): nat {
    if bs == [] then 0 else bs[0] + TWO8 * FromLe(bs[1..])
  }

  function Pow256(n: nat): nat { if n == 0 then 1 else TWO8 * Pow256(n - 1) }

  lemma {:induction false} LeRoundTrip(x: nat, n: nat)
    requires x < Pow256(n)
    ensures FromLe(ToLe(x, n)) == x
  {
    if n != 0 {
      LeRoundTrip(x / TWO8, n - 1);
      assert ToLe(x, n)[1..] == ToLe(x / TWO8, n - 1);
    }
  }

  lemma {:induction false} FromLeBound(bs: seq<u8>)
    ensures FromLe(bs) < Pow256(|bs|)
  {
    if bs != [] {
      FromLeBound(bs[1..]);
    }
  }

  /** `u64::to_le_bytes` and `u64::from_le_bytes` are inverse. */
  lemma U64Bytes(x: u64)
    ensures |ToLe(x, 8)| == 8 && FromLe(ToLe(x, 8)) == x
  {
    assert Pow256(8) == TWO64;
    LeRoundTrip(x, 8);
  }

  lemma U64FromBytes(bs: seq<u8>)
    requires |bs| == 8
    ensures FromLe(bs) < TWO64
  {
    assert Pow256(8) == TWO64;
    FromLeBound(bs);
  }

  /** `str::from_utf8` accepts exactly the sequences of Table 3-7 of the Unicode Standard. */
  predicate IsUtf8(s: seq<u8>)
    decreases |s|
  {
    if s == [] then true
    else if s[0] < 0x80 then IsUtf8(s[1..])
    else if 0xC2 <= s[0] <= 0xDF then |s| >= 2 && Trail(s[1]) && IsUtf8(s[2..])
    else if 0xE0 <= s[0] <= 0xEF then
      && |s| >= 3 && Trail(s[1]) && Trail(s[2])
      && (s[0] == 0xE0 ==> s[1] >= 0xA0) && (s[0] == 0xED ==> s[1] <= 0x9F)
      && IsUtf8(s[3..])
    else if 0xF0 <= s[0] <= 0xF4 then
      && |s| >= 4 && Trail(s[1]) && Trail(s[2]) && Trail(s[3])
      && (s[0] == 0xF0 ==> s[1] >= 0x90) && (s[0] == 0xF4 ==> s[1] <= 0x8F)
      && IsUtf8(s[4..])
    else false
  }

  predicate Trail(b: u8) { 0x80 <= b <= 0xBF }
}

/** Sets of numbers in ascending order, the way a `BTreeSet` iterates, and the order on strings. */
module Ordered {
  ghost predicate StrictlyAscending(s: seq<nat>) {
    forall i, j :: 0 <= i < j < |s| ==> s[i] < s[j]
  }

  function Sorted(s: set<nat>): (r: seq<nat>)
    ensures StrictlyAscending(r)
    ensures forall x :: x in r <==> x in s
    decreases |s|
  {
    if s == {} then [] else
      var m := Max(s);
      var rest := Sorted(s - {m});
      assert forall i :: 0 <= i < |rest| ==> rest[i] in s - {m};
      assert forall x :: x in rest + [m] <==> x in rest || x == m;
      rest + [m]
  }

  predicate IsMax(s: set<nat>, m: nat) {
    m in s && forall x :: x in s ==> x <= m
  }

  function Max(s: set<nat>): (m: nat)
    requires s != {}
    ensures IsMax(s, m)
  {
    MaxExists(s);
    var m :| IsMax(s, m);
    m
  }

  lemma {:induction false} MaxExists(s: set<nat>)
    requires s != {}
    ensures exists m :: IsMax(s, m)
    decreases |s|
  {
    var y :| y in s;
    var rest := s - {y};
    assert s == rest + {y};
    if rest == {} {
      assert IsMax(s, y);
    } else {
      MaxExists(rest);
      var m :| IsMax(rest, m);
      assert IsMax(s, if y < m then m else y);
    }
  }

  /** `Ord` of `String`: lexicographic. */
  predicate StringLess(a: string, b: string)
    decreases |a|
  {
    if b == "" then false
    else if a == "" then true
    else a[0] < b[0] || (a[0] == b[0] && StringLess(a[1..], b[1..]))
  }

  lemma {:induction false} StringLessTotal(a: string, b: string)
    ensures StringLess(a, b) || a == b || StringLess(b, a)
    ensures !(StringLess(a, b) && StringLess(b, a)) && !StringLess(a, a)
    decreases |a|
  {
    if a != "" {
      StringLessTotal(a[1..], a[1..]);
      if b != "" {
        StringLessTotal(a[1..], b[1..]);
        if a[0] == b[0] && a[1..] == b[1..] {
          assert a == [a[0]] + a[1..] && b == [b[0]] + b[1..];
        }
      }
    }
  }

  lemma {:induction false} StringLessTransitive(a: string, b: string, c: string)
    requires StringLess(a, b) && StringLess(b, c)
    ensures StringLess(a, c)
    decreases |a|
  {
    if a != "" && a[0] == b[0] && b[0] == c[0] {
      StringLessTransitive(a[1..], b[1..], c[1..]);
    }
  }
}
