/** Base32 secrets (aeon-sync/src/vault.rs), against section 6 of RFC 4648. */
module Base32 {
  import opened Words

  type Quintet = v: int | 0 <= v < 32

  /** What a character contributes: a value, nothing (separators), or an error. */
  datatype Symbol = Value(v: Quintet) | Skipped | Invalid

  function Classify(ch: char): Symbol {
    if 'A' <= ch <= 'Z' then Value(ch as int - 'A' as int)
    else if 'a' <= ch <= 'z' then Value(ch as int - 'a' as int)
    else if '2' <= ch <= '7' then Value(ch as int - '2' as int + 26)
    else if ch == '=' || ch == ' ' || ch == '-' then Skipped
    else Invalid
  }

  predicate AllValid(s: string) { forall k :: 0 <= k < |s| ==> !Classify(s[k]).Invalid? }

  /** The values of a secret, separators dropped. */
  function Values(s: string): (r: seq<Quintet>)
    decreases |s|
  {
    if s == "" then []
    else
      var front := Values(s[..|s| - 1]);
      match Classify(s[|s| - 1]) case Value(v) => front + [v] case _ => front
  }

  /** Powers of two up to the widest the accumulator's pending part gets. */
  function Pow2(n: nat): (r: nat)
    requires n <= 12
    ensures r > 0
  {
    if n == 0 then 1 else if n == 1 then 2 else if n == 2 then 4 else if n == 3 then 8 else if n == 4 then 16
    else if n == 5 then 32 else if n == 6 then 64 else if n == 7 then 128 else if n == 8 then 256
    else if n == 9 then 512 else if n == 10 then 1024 else if n == 11 then 2048 else 4096
  }

  // ----- bits -----

  /** Bit `j` of the concatenated 5-bit groups, most significant first. */
  function Bit(vs: seq<Quintet>, j: nat): (b: nat)
    requires j < 5 * |vs|
    ensures b < 2
  {
    vs[j / 5] / Pow2(4 - j % 5) % 2
  }

  /** Bit `j` of a byte string. */
  function ByteBit(bs: seq<u8>, j: nat): (b: nat)
    requires j < 8 * |bs|
    ensures b < 2
  {
    bs[j / 8] / Pow2(7 - j % 8) % 2
  }

  /** The number formed by bits `j .. j + w` of the groups. */
  function Window(vs: seq<Quintet>, j: nat, w: nat): nat
    requires j + w <= 5 * |vs|
    decreases w
  {
    if w == 0 then 0 else 2 * Window(vs, j, w - 1) + Bit(vs, j + w - 1)
  }

  /** The number formed by bits `j .. j + w` of a byte string. */
  function ByteWindow(bs: seq<u8>, j: nat, w: nat): nat
    requires j + w <= 8 * |bs|
  {
    if w == 0 then 0 else 2 * ByteWindow(bs, j, w - 1) + ByteBit(bs, j + w - 1)
  }

  lemma {:induction false} WindowBound(vs: seq<Quintet>, j: nat, w: nat)
    requires j + w <= 5 * |vs|
    requires w <= 12
    ensures Window(vs, j, w) < Pow2(w)
  {
    hide Bit;
    if w > 0 { WindowBound(vs, j, w - 1); }
  }

  lemma DoubleProduct(x: nat, w: nat)
    requires w <= 12
    ensures x * Pow2(w) == if w == 0 then x else 2 * (x * Pow2(w - 1))
  {
    assert w > 0 ==> Pow2(w) == 2 * Pow2(w - 1);
  }

  lemma {:induction false} WindowJoin(vs: seq<Quintet>, j: nat, u: nat, w: nat)
    requires j + u + w <= 5 * |vs| && w <= 12
    ensures Window(vs, j, u + w) == Window(vs, j, u) * Pow2(w) + Window(vs, j + u, w)
  {
    hide Bit, Pow2;
    DoubleProduct(Window(vs, j, u), w);
    if w > 0 {
      WindowJoin(vs, j, u, w - 1);
      assert Window(vs, j, u + w) == 2 * Window(vs, j, u + w - 1) + Bit(vs, j + u + w - 1);
      assert Window(vs, j + u, w) == 2 * Window(vs, j + u, w - 1) + Bit(vs, j + u + w - 1);
    }
  }

  lemma {:induction false} WindowExtends(vs: seq<Quintet>, more: seq<Quintet>, j: nat, w: nat)
    requires j + w <= 5 * |vs|
    ensures Window(vs + more, j, w) == Window(vs, j, w)
  {
    if w > 0 { WindowExtends(vs, more, j, w - 1); }
  }

  lemma BitAt(vs: seq<Quintet>, i: nat, k: nat)
    requires i < |vs| && k < 5
    ensures Bit(vs, 5 * i + k) == vs[i] / Pow2(4 - k) % 2
  {
    assert (5 * i + k) / 5 == i && (5 * i + k) % 5 == k;
  }

  /** A whole group read as a window is the group's value. */
  lemma WindowOfGroup(vs: seq<Quintet>, i: nat)
    requires i < |vs|
    ensures Window(vs, 5 * i, 5) == vs[i]
  {
    hide Bit;
    BitAt(vs, i, 0);
    BitAt(vs, i, 1);
    BitAt(vs, i, 2);
    BitAt(vs, i, 3);
    BitAt(vs, i, 4);
    var j := 5 * i;
    assert Window(vs, j, 5) == 16 * Bit(vs, j) + 8 * Bit(vs, j + 1) + 4 * Bit(vs, j + 2) + 2 * Bit(vs, j + 3) + Bit(vs, j + 4) by {
      assert Window(vs, j, 1) == Bit(vs, j);
      assert Window(vs, j, 2) == 2 * Window(vs, j, 1) + Bit(vs, j + 1);
      assert Window(vs, j, 3) == 2 * Window(vs, j, 2) + Bit(vs, j + 2);
      assert Window(vs, j, 4) == 2 * Window(vs, j, 3) + Bit(vs, j + 3);
    }
    QuintetBits(vs[i]);
  }

  lemma QuintetBits(v: Quintet)
    ensures v == 16 * (v / 16 % 2) + 8 * (v / 8 % 2) + 4 * (v / 4 % 2) + 2 * (v / 2 % 2) + v / 1 % 2
  {
  }

  /** Byte `k` of the output is bits 8k to 8k+7, and there are floor(5n/8) of them. */
  function Packed(vs: seq<Quintet>): (r: seq<nat>)
    ensures |r| == 5 * |vs| / 8
  {
    seq(5 * |vs| / 8, k requires 0 <= k < 5 * |vs| / 8 => Window(vs, 8 * k, 8))
  }

  // ----- the decoder -----

  /** `(buffer << 5) | v` on 32 bits: high bits fall off, the low five are free. */
  function ShiftIn(buffer: nat, v: Quintet): nat { buffer * 32 % TWO32 + v }

  /** The accumulator is never masked, but its low `bits` bits are always the pending ones. */
  ghost predicate Pending(vs: seq<Quintet>, buffer: nat, bits: nat)
    requires bits <= 12
  {
    bits <= 5 * |vs| && buffer % Pow2(bits) == Window(vs, 5 * |vs| - bits, bits)
  }

  lemma ShiftInPending(vs: seq<Quintet>, buffer: nat, bits: nat, v: Quintet)
    requires bits < 8 && Pending(vs, buffer, bits)
    ensures Pending(vs + [v], ShiftIn(buffer, v), bits + 5)
  {
    hide Window, Bit, ShiftIn;
    var next := vs + [v];
    var at := 5 * |vs| - bits;
    WindowJoin(next, at, bits, 5);
    WindowExtends(vs, [v], at, bits);
    WindowOfGroup(next, |vs|);
    LowBits(buffer, bits, v);
  }

  lemma MultipleIsLarge(m: nat, k: nat)
    requires k > 0
    ensures m * k >= m
  {
  }

  lemma QuotientUnique(x: int, m: nat, a: int, r: nat)
    requires r < m && x == m * a + r
    ensures x % m == r && x / m == a
  {
    var q, t := x / m, x % m;
    var d := a - q;
    assert m * d == m * a - m * q;
    assert m * d == t - r;
    if d > 0 {
      MultipleIsLarge(m, d);
    } else if d < 0 {
      assert m * -d == r - t;
      MultipleIsLarge(m, -d);
    }
  }

  /** The bits lost off the top of the accumulator never reach the pending ones. */
  lemma LowBits(buffer: nat, bits: nat, v: Quintet)
    requires bits < 8
    ensures ShiftIn(buffer, v) % Pow2(bits + 5) == buffer % Pow2(bits) * 32 + v
  {
    var m, lost := Pow2(bits), buffer * 32 / TWO32;
    var high := TWO32 / Pow2(bits + 5);
    assert Pow2(bits + 5) == 32 * m && TWO32 == high * Pow2(bits + 5);
    assert buffer == m * (buffer / m) + buffer % m;
    assert ShiftIn(buffer, v) == buffer * 32 - TWO32 * lost + v;
    assert TWO32 * lost == Pow2(bits + 5) * (high * lost);
    assert buffer * 32 == Pow2(bits + 5) * (buffer / m) + buffer % m * 32;
    assert Pow2(bits + 5) * (buffer / m - high * lost) == Pow2(bits + 5) * (buffer / m) - Pow2(bits + 5) * (high * lost);
    QuotientUnique(ShiftIn(buffer, v), Pow2(bits + 5), buffer / m - high * lost, buffer % m * 32 + v);
  }

  /** Taking the top eight pending bits yields the next output byte and leaves the rest pending. */
  lemma TakeByte(vs: seq<Quintet>, buffer: nat, bits: nat)
    requires 8 <= bits <= 12 && Pending(vs, buffer, bits)
    ensures buffer / Pow2(bits - 8) % 256 == Window(vs, 5 * |vs| - bits, 8)
    ensures Pending(vs, buffer, bits - 8)
  {
    hide Window;
    var at, rest := 5 * |vs| - bits, bits - 8;
    WindowJoin(vs, at, 8, rest);
    WindowBound(vs, at + 8, rest);
    WindowBound(vs, at, 8);
    var m, byte, low := Pow2(rest), Window(vs, at, 8), Window(vs, at + 8, rest);
    var above := buffer / Pow2(bits);
    assert Pow2(bits) == 256 * m;
    assert buffer == Pow2(bits) * above + (byte * m + low);
    assert Pow2(bits) * above == m * (256 * above);
    assert m * (256 * above + byte) == m * (256 * above) + byte * m;
    QuotientUnique(buffer, m, 256 * above + byte, low);
    QuotientUnique(buffer / m, 256, above, byte);
  }

  lemma NothingPending()
    ensures Pending([], 0, 0) && Packed([]) == []
  {
  }

  method DecodeSecret(secret: string) returns (r: Option<seq<nat>>)
    ensures r.Some? <==> AllValid(secret) && 5 * |Values(secret)| >= 8
    ensures r.Some? ==> r.value == Packed(Values(secret))
  {
    hide Window, Bit, ShiftIn, Pow2;
    var buffer: nat, bits: nat := 0, 0;
    NothingPending();
    var out: seq<nat> := [];
    var i := 0;
    while i < |secret|
      invariant 0 <= i <= |secret| && bits < 8
      invariant AllValid(secret[..i])
      invariant Pending(Values(secret[..i]), buffer, bits)
      invariant 8 * |out| + bits == 5 * |Values(secret[..i])|
      invariant out == Packed(Values(secret[..i]))
    {
      assert secret[..i + 1][..i] == secret[..i];
      ghost var vs := Values(secret[..i]);
      match Classify(secret[i]) {
        case Skipped =>
        case Invalid =>
          return None;
        case Value(v) =>
          ShiftInPending(vs, buffer, bits, v);
          buffer := ShiftIn(buffer, v);
          bits := bits + 5;
          PackedPrefix(vs, v);
          while bits >= 8
            invariant bits <= 12 && Pending(vs + [v], buffer, bits)
            invariant 8 * |out| + bits == 5 * |vs| + 5
            invariant out == Packed(vs + [v])[..|out|]
            decreases bits
          {
            TakeByte(vs + [v], buffer, bits);
            bits := bits - 8;
            out := out + [buffer / Pow2(bits) % 256];
          }
      }
      i := i + 1;
    }
    assert secret[..i] == secret;
    if out == [] {
      return None;
    }
    r := Some(out);
  }

  lemma PackedPrefix(vs: seq<Quintet>, v: Quintet)
    ensures |Packed(vs)| <= |Packed(vs + [v])| && Packed(vs + [v])[..|Packed(vs)|] == Packed(vs)
  {
    forall k | 0 <= k < |Packed(vs)| ensures Packed(vs + [v])[k] == Packed(vs)[k] {
      WindowExtends(vs, [v], 8 * k, 8);
    }
  }

  // ----- decoding inverts the encoding -----

  /** Bit `j` of the byte string, zero-padded on the right. */
  function PaddedBit(bs: seq<u8>, j: nat): nat { if j < 8 * |bs| then ByteBit(bs, j) else 0 }

  /** The final group is padded with zero bits. */
  function Groups(bs: seq<u8>): (vs: seq<Quintet>)
    ensures |vs| == (8 * |bs| + 4) / 5
  {
    seq((8 * |bs| + 4) / 5, i requires 0 <= i => Group(bs, 5 * i))
  }

  function Group(bs: seq<u8>, j: nat): Quintet {
    Bin(PaddedBit(bs, j)) * 16 + Bin(PaddedBit(bs, j + 1)) * 8 + Bin(PaddedBit(bs, j + 2)) * 4
    + Bin(PaddedBit(bs, j + 3)) * 2 + Bin(PaddedBit(bs, j + 4))
  }

  function Bin(b: nat): (r: nat)
    ensures r < 2 && (b < 2 ==> r == b)
  {
    b % 2
  }

  lemma GroupBits(bs: seq<u8>, j: nat)
    requires j < 8 * |bs|
    ensures Bit(Groups(bs), j) == ByteBit(bs, j)
  {
    hide ByteBit, Bin;
    var i := 5 * (j / 5);
    assert Groups(bs)[j / 5] == Group(bs, i);
    FiveBits(Bin(PaddedBit(bs, i)), Bin(PaddedBit(bs, i + 1)), Bin(PaddedBit(bs, i + 2)),
             Bin(PaddedBit(bs, i + 3)), Bin(PaddedBit(bs, i + 4)), j % 5);
    assert j == i + j % 5;
  }

  lemma FiveBits(a: nat, b: nat, c: nat, d: nat, e: nat, k: nat)
    requires a < 2 && b < 2 && c < 2 && d < 2 && e < 2 && k < 5
    ensures (a * 16 + b * 8 + c * 4 + d * 2 + e) / Pow2(4 - k) % 2
            == if k == 0 then a else if k == 1 then b else if k == 2 then c else if k == 3 then d else e
  {
  }

  lemma {:induction false} SameWindow(bs: seq<u8>, j: nat, w: nat)
    requires j + w <= 8 * |bs|
    ensures Window(Groups(bs), j, w) == ByteWindow(bs, j, w)
  {
    hide Bit, ByteBit, Groups;
    if w > 0 {
      SameWindow(bs, j, w - 1);
      GroupBits(bs, j + w - 1);
    }
  }

  lemma ByteBitAt(bs: seq<u8>, k: nat, i: nat)
    requires k < |bs| && i < 8
    ensures ByteBit(bs, 8 * k + i) == bs[k] / Pow2(7 - i) % 2
  {
    assert (8 * k + i) / 8 == k && (8 * k + i) % 8 == i;
  }

  lemma HalveTwice(b: u8)
    ensures b / 128 == b / 128 % 2 && b / 64 == 2 * (b / 128) + b / 64 % 2 && b / 32 == 2 * (b / 64) + b / 32 % 2
    ensures b / 16 == 2 * (b / 32) + b / 16 % 2 && b / 8 == 2 * (b / 16) + b / 8 % 2
    ensures b / 4 == 2 * (b / 8) + b / 4 % 2 && b / 2 == 2 * (b / 4) + b / 2 % 2 && b == 2 * (b / 2) + b % 2
  {
  }

  lemma ByteWindowStep(bs: seq<u8>, k: nat, w: nat)
    requires k < |bs| && w < 8
    ensures ByteWindow(bs, 8 * k, w + 1) == 2 * ByteWindow(bs, 8 * k, w) + bs[k] / Pow2(7 - w) % 2
  {
    hide ByteBit;
    ByteBitAt(bs, k, w);
  }

  lemma {:induction false} WindowOfByte(bs: seq<u8>, k: nat)
    requires k < |bs|
    ensures ByteWindow(bs, 8 * k, 8) == bs[k]
  {
    hide ByteBit, ByteWindow;
    var j, b := 8 * k, bs[k];
    HalveTwice(b);
    EmptyByteWindow(bs, j);
    ByteWindowStep(bs, k, 0);
    ByteWindowStep(bs, k, 1);
    ByteWindowStep(bs, k, 2);
    ByteWindowStep(bs, k, 3);
    ByteWindowStep(bs, k, 4);
    ByteWindowStep(bs, k, 5);
    ByteWindowStep(bs, k, 6);
    ByteWindowStep(bs, k, 7);
  }

  lemma EmptyByteWindow(bs: seq<u8>, j: nat)
    requires j <= 8 * |bs|
    ensures ByteWindow(bs, j, 0) == 0
  {
  }

  /** Packing the groups of a byte string, of any length, gives the string back. */
  lemma PackedInvertsGroups(bs: seq<u8>)
    ensures Packed(Groups(bs)) == bs
  {
    forall k | 0 <= k < |bs| ensures Packed(Groups(bs))[k] == bs[k] {
      SameWindow(bs, 8 * k, 8);
      WindowOfByte(bs, k);
    }
  }

  function Symbols(vs: seq<Quintet>): (s: string)
    ensures |s| == |vs|
  {
    seq(|vs|, i requires 0 <= i < |vs| =>
      if vs[i] < 26 then ('A' as int + vs[i]) as char else ('2' as int + vs[i] - 26) as char)
  }

  lemma {:induction false} SymbolsRead(vs: seq<Quintet>)
    ensures AllValid(Symbols(vs)) && Values(Symbols(vs)) == vs
    decreases |vs|
  {
    if vs != [] {
      var n := |vs| - 1;
      SymbolsRead(vs[..n]);
      assert Symbols(vs)[..n] == Symbols(vs[..n]);
      assert vs == vs[..n] + [vs[n]];
    }
  }

  /** Decoding the RFC 4648 encoding of a nonempty secret, with or without its padding, returns the secret. */
  lemma DecodeInvertsEncode(bs: seq<u8>, padding: nat)
    requires bs != []
    ensures var text := Symbols(Groups(bs)) + seq(padding, _ => '=');
            AllValid(text) && 5 * |Values(text)| >= 8 && Packed(Values(text)) == bs
  {
    SymbolsRead(Groups(bs));
    PaddingIgnored(Symbols(Groups(bs)), padding);
    PackedInvertsGroups(bs);
  }

  lemma {:induction false} PaddingIgnored(s: string, padding: nat)
    requires AllValid(s)
    ensures AllValid(s + seq(padding, _ => '=')) && Values(s + seq(padding, _ => '=')) == Values(s)
  {
    var t := s + seq(padding, _ => '=');
    if padding == 0 {
      assert t == s;
    } else {
      PaddingIgnored(s, padding - 1);
      assert t[..|t| - 1] == s + seq(padding - 1, _ => '=');
    }
  }

  // ----- case and separators -----

  function Upper(ch: char): char { if 'a' <= ch <= 'z' then (ch as int - 32) as char else ch }

  /** The letters and digits of a secret in upper case: padding, spaces and dashes dropped. */
  function Letters(s: string): string
    decreases |s|
  {
    if s == "" then ""
    else
      var front, ch := Letters(s[..|s| - 1]), s[|s| - 1];
      if ch == '=' || ch == ' ' || ch == '-' then front else front + [Upper(ch)]
  }

  predicate Alphabet(ch: char) { 'A' <= ch <= 'Z' || '2' <= ch <= '7' }

  predicate InAlphabet(s: string) { forall k :: 0 <= k < |s| ==> Alphabet(s[k]) }

  /** Separators and letter case do not matter: a secret is valid exactly when what remains lies in the RFC 4648 alphabet, and its
      values are then those of what remains. */
  lemma {:induction false} OnlyLettersCount(s: string)
    ensures AllValid(s) <==> InAlphabet(Letters(s))
    ensures AllValid(s) ==> Symbols(Values(s)) == Letters(s)
    decreases |s|
  {
    if s != "" {
      var front, ch := s[..|s| - 1], s[|s| - 1];
      OnlyLettersCount(front);
      assert s == front + [ch];
      assert AllValid(s) <==> AllValid(front) && !Classify(ch).Invalid?;
      var l := Letters(front);
      if ch == '=' || ch == ' ' || ch == '-' {
        assert Letters(s) == l;
      } else {
        assert Letters(s) == l + [Upper(ch)];
        assert InAlphabet(Letters(s)) <==> InAlphabet(l) && Alphabet(Upper(ch)) by {
          assert Letters(s)[|l|] == Upper(ch);
          assert forall k :: 0 <= k < |l| ==> Letters(s)[k] == l[k];
        }
        SymbolOf(ch);
      }
    }
  }

  lemma SymbolOf(ch: char)
    requires ch != '=' && ch != ' ' && ch != '-'
    ensures Classify(ch).Value? <==> Alphabet(Upper(ch))
    ensures Classify(ch).Value? ==> Symbols([Classify(ch).v]) == [Upper(ch)]
    ensures !Classify(ch).Skipped?
  {
  }

  /** Hence every way to write the encoding of a secret, in either case and with any separators, decodes to it. */
  lemma AnySpellingDecodes(bs: seq<u8>, text: string)
    requires bs != [] && Letters(text) == Symbols(Groups(bs))
    ensures AllValid(text) && 5 * |Values(text)| >= 8 && Packed(Values(text)) == bs
  {
    hide Symbols, Groups, Values, Packed;
    SymbolsRead(Groups(bs));
    SymbolsInAlphabet(Groups(bs));
    OnlyLettersCount(text);
    SymbolsDiffer(Values(text), Groups(bs));
    PackedInvertsGroups(bs);
  }

  lemma SymbolsInAlphabet(vs: seq<Quintet>)
    ensures InAlphabet(Symbols(vs))
  {
  }

  lemma SymbolsDiffer(a: seq<Quintet>, b: seq<Quintet>)
    requires Symbols(a) == Symbols(b)
    ensures a == b
  {
    assert |a| == |b|;
    forall i | 0 <= i < |a| ensures a[i] == b[i] {
      assert Symbols(a)[i] == Symbols(b)[i];
    }
  }
}
