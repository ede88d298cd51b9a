/** Decoding of chunked HTTP bodies (aeon-sync/src/relay.rs), against section 7.1 of RFC 9112. */
module Chunked {
  import opened Words

  const CR: u8 := 13
  const LF: u8 := 10
  const SEMICOLON: u8 := 59

  datatype ChunkError = InvalidBody | InvalidSize | Truncated | InvalidTerminator

  const CRLF: seq<u8> := [CR, LF]

  /** The position of the first CR LF at or after `from`. */
  function FindCrlf(b: seq<u8>, from: nat): (r: Option<nat>)
    requires from <= |b|
    ensures r.Some? ==> from <= r.value && r.value + 1 < |b| && b[r.value] == CR && b[r.value + 1] == LF
    ensures r.Some? ==> forall k :: from <= k < r.value ==> !(b[k] == CR && b[k + 1] == LF)
    ensures r.None? ==> forall k :: from <= k < |b| - 1 ==> !(b[k] == CR && b[k + 1] == LF)
    decreases |b| - from
  {
    if from + 1 >= |b| then None
    else if b[from] == CR && b[from + 1] == LF then Some(from)
    else FindCrlf(b, from + 1)
  }

  /** Up to the first semicolon: chunk extensions are ignored. */
  function BeforeSemicolon(s: seq<u8>): seq<u8> {
    if s == [] || s[0] == SEMICOLON then [] else [s[0]] + BeforeSemicolon(s[1..])
  }

  /** How many bytes at the front encode a white-space character, in UTF-8. */
  function SpaceLength(s: seq<u8>): (n: nat)
    ensures n <= |s|
  {
    if |s| >= 1 && (s[0] == 0x20 || 9 <= s[0] <= 13) then 1
    else if |s| >= 2 && s[0] == 0xC2 && (s[1] == 0x85 || s[1] == 0xA0) then 2
    else if |s| >= 3 && IsWideSpace(s[0], s[1], s[2]) then 3
    else 0
  }

  /** U+1680, U+2000 to U+200A, U+2028, U+2029, U+202F, U+205F and U+3000 */
  predicate IsWideSpace(a: u8, b: u8, c: u8) {
    || (a == 0xE1 && b == 0x9A && c == 0x80)
    || (a == 0xE2 && b == 0x80 && (0x80 <= c <= 0x8A || c == 0xA8 || c == 0xA9 || c == 0xAF))
    || (a == 0xE2 && b == 0x81 && c == 0x9F)
    || (a == 0xE3 && b == 0x80 && c == 0x80)
  }

  /** The last `n` bytes are one white-space character. */
  predicate EndsInSpace(s: seq<u8>, n: nat) { 0 < n <= |s| && SpaceLength(s[|s| - n..]) == n }

  function TrimLeft(s: seq<u8>): seq<u8>
    decreases |s|
  {
    if SpaceLength(s) > 0 then TrimLeft(s[SpaceLength(s)..]) else s
  }

  function TrimRight(s: seq<u8>): seq<u8>
    decreases |s|
  {
    if EndsInSpace(s, 1) then TrimRight(s[..|s| - 1])
    else if EndsInSpace(s, 2) then TrimRight(s[..|s| - 2])
    else if EndsInSpace(s, 3) then TrimRight(s[..|s| - 3])
    else s
  }

  function HexValue(b: u8): Option<nat> {
    if 48 <= b <= 57 then Some(b - 48)
    else if 97 <= b <= 102 then Some(b - 87)
    else if 65 <= b <= 70 then Some(b - 55)
    else None
  }

  /** The value of a digit string, refused as soon as it leaves 64 bits. */
  function HexDigits(s: seq<u8>): (r: Option<nat>)
    ensures r.Some? ==> r.value < TWO64
    decreases |s|
  {
    if s == [] then Some(0)
    else
      var front, d := HexDigits(s[..|s| - 1]), HexValue(s[|s| - 1]);
      if front.None? || d.None? || front.value * 16 + d.value >= TWO64 then None else Some(front.value * 16 + d.value)
  }

  /** `usize::from_str_radix(_, 16)`: one leading plus is allowed, no digits are not. */
  function ParseHex(s: seq<u8>): Option<nat> {
    var digits := if s != [] && s[0] == 43 then s[1..] else s;
    if digits == [] then None else HexDigits(digits)
  }

  function ParseSize(line: seq<u8>): Option<nat> {
    if !IsUtf8(line) then None else ParseHex(TrimRight(TrimLeft(BeforeSemicolon(line))))
  }

  /** The decoding of `body` from `pos` on. */
  function Decode(body: seq<u8>, pos: nat): Result<seq<u8>, ChunkError>
    requires pos <= |body|
    decreases |body| - pos
  {
    var lineEnd := FindCrlf(body, pos);
    if lineEnd.None? then Err(InvalidBody)
    else
      var size := ParseSize(body[pos..lineEnd.value]);
      var at := lineEnd.value + 2;
      if size.None? then Err(InvalidSize)
      else if size.value == 0 then Ok([])
      else if at + size.value > |body| then Err(Truncated)
      else if at + size.value + 2 > |body| || body[at + size.value..at + size.value + 2] != CRLF then Err(InvalidTerminator)
      else
        Prepend(body[at..at + size.value], Decode(body, at + size.value + 2))
  }

  function Prepend(x: seq<u8>, r: Result<seq<u8>, ChunkError>): Result<seq<u8>, ChunkError> {
    match r case Ok(y) => Ok(x + y) case Err(_) => r
  }

  lemma PrependTwice(x: seq<u8>, y: seq<u8>, r: Result<seq<u8>, ChunkError>)
    ensures Prepend(x, Prepend(y, r)) == Prepend(x + y, r) && Prepend([], r) == r
    ensures Prepend(x, Ok([])) == Ok(x)
  {
    if r.Ok? {
      assert x + (y + r.value) == x + y + r.value && [] + r.value == r.value;
    }
    assert x + [] == x;
  }

  lemma PrependError(x: seq<u8>, r: Result<seq<u8>, ChunkError>)
    ensures r.Err? ==> Prepend(x, r) == r
  {
  }

  method DecodeChunkedBody(body: seq<u8>) returns (r: Result<seq<u8>, ChunkError>)
    ensures r == Decode(body, 0)
  {
    hide FindCrlf, ParseSize, Prepend;
    var decoded: seq<u8>, pos := [], 0;
    PrependTwice([], [], Decode(body, 0));
    while true
      invariant pos <= |body|
      invariant Decode(body, 0) == Prepend(decoded, Decode(body, pos))
      decreases |body| - pos
    {
      PrependError(decoded, Decode(body, pos));
      var lineEnd := FindCrlf(body, pos);
      if lineEnd.None? {
        return Err(InvalidBody);
      }
      var size := ParseSize(body[pos..lineEnd.value]);
      if size.None? {
        return Err(InvalidSize);
      }
      var at := lineEnd.value + 2;
      if size.value == 0 {
        PrependTwice(decoded, [], Ok([]));
        return Ok(decoded);
      }
      if at + size.value > |body| {
        return Err(Truncated);
      }
      if at + size.value + 2 > |body| || body[at + size.value..at + size.value + 2] != CRLF {
        return Err(InvalidTerminator);
      }
      PrependTwice(decoded, body[at..at + size.value], Decode(body, at + size.value + 2));
      decoded := decoded + body[at..at + size.value];
      pos := at + size.value + 2;
    }
  }

  // ----- the coding -----

  /** A chunk: its data and the extension text after its size. */
  datatype Chunk = Chunk(data: seq<u8>, extension: seq<u8>)

  function HexDigit(d: nat): u8
    requires d < 16
  {
    if d < 10 then 48 + d else 87 + d
  }

  function Hex(n: nat): (s: seq<u8>)
    ensures s != []
    ensures forall k :: 0 <= k < |s| ==> HexValue(s[k]).Some?
  {
    if n < 16 then [HexDigit(n)] else Hex(n / 16) + [HexDigit(n % 16)]
  }

  predicate IsBlank(b: u8) { b == 0x20 || b == 9 }

  /** An extension starts with a semicolon, spaces and tabs before it allowed, is text, and has no line break in it. */
  ghost predicate ExtensionOk(e: seq<u8>) {
    (AfterBlanks(e) == [] || AfterBlanks(e)[0] == SEMICOLON) && IsUtf8(e) && forall k :: 0 <= k < |e| ==> e[k] != CR
  }

  function AfterBlanks(e: seq<u8>): seq<u8> { if e != [] && IsBlank(e[0]) then AfterBlanks(e[1..]) else e }

  function Blanks(e: seq<u8>): (b: seq<u8>)
    ensures forall k :: 0 <= k < |b| ==> IsBlank(b[k])
  {
    if e != [] && IsBlank(e[0]) then [e[0]] + Blanks(e[1..]) else []
  }

  ghost predicate ChunkOk(c: Chunk) { 0 < |c.data| < TWO64 && ExtensionOk(c.extension) }

  function EncodeChunk(c: Chunk): seq<u8> { Hex(|c.data|) + c.extension + CRLF + c.data + CRLF }

  /** The last chunk has size zero; whatever follows it is trailer. */
  function Encode(cs: seq<Chunk>, trailer: seq<u8>): seq<u8> {
    if cs == [] then Hex(0) + CRLF + trailer else EncodeChunk(cs[0]) + Encode(cs[1..], trailer)
  }

  function Joined(cs: seq<Chunk>): seq<u8> { if cs == [] then [] else cs[0].data + Joined(cs[1..]) }

  lemma {:induction false} HexParses(n: nat)
    requires n < TWO64
    ensures HexDigits(Hex(n)) == Some(n)
  {
    if n < 16 {
      assert [HexDigit(n)][..0] == [];
    } else {
      HexParses(n / 16);
      assert Hex(n)[..|Hex(n)| - 1] == Hex(n / 16);
    }
  }

  lemma {:induction false} HexThenExtension(h: seq<u8>, e: seq<u8>)
    requires forall k :: 0 <= k < |h| ==> HexValue(h[k]).Some?
    ensures BeforeSemicolon(h + e) == h + BeforeSemicolon(e)
    ensures IsUtf8(e) ==> IsUtf8(h + e)
    decreases |h|
  {
    if h == [] {
      assert h + e == e;
    } else {
      assert (h + e)[0] == h[0] && (h + e)[1..] == h[1..] + e;
      HexThenExtension(h[1..], e);
      assert h == [h[0]] + h[1..];
      assert [h[0]] + (h[1..] + BeforeSemicolon(e)) == h + BeforeSemicolon(e);
    }
  }

  lemma {:induction false} BlanksBeforeSemicolon(e: seq<u8>)
    requires AfterBlanks(e) == [] || AfterBlanks(e)[0] == SEMICOLON
    ensures BeforeSemicolon(e) == Blanks(e)
    decreases |e|
  {
    if e != [] && IsBlank(e[0]) {
      BlanksBeforeSemicolon(e[1..]);
    }
  }

  lemma {:induction false} BlanksTrimmed(h: seq<u8>, b: seq<u8>)
    requires forall k :: 0 <= k < |b| ==> IsBlank(b[k])
    ensures TrimRight(h + b) == TrimRight(h)
    decreases |b|
  {
    if b == [] {
      assert h + b == h;
    } else {
      var s, n := h + b, |b| - 1;
      assert IsBlank(b[n]);
      assert s[|s| - 1..] == [b[n]];
      assert s[..|s| - 1] == h + b[..n];
      BlanksTrimmed(h, b[..n]);
    }
  }

  lemma DigitsAreNoSpace(h: seq<u8>)
    requires forall k :: 0 <= k < |h| ==> HexValue(h[k]).Some?
    ensures SpaceLength(h) == 0
  {
    if h != [] { assert HexValue(h[0]).Some?; }
  }

  lemma DigitsUntrimmed(h: seq<u8>)
    requires forall k :: 0 <= k < |h| ==> HexValue(h[k]).Some?
    ensures TrimRight(h) == h
  {
    hide SpaceLength, HexValue, EndsInSpace;
    DigitsEndInNoSpace(h, 1);
    DigitsEndInNoSpace(h, 2);
    DigitsEndInNoSpace(h, 3);
  }

  lemma DigitsEndInNoSpace(h: seq<u8>, n: nat)
    requires forall k :: 0 <= k < |h| ==> HexValue(h[k]).Some?
    ensures !EndsInSpace(h, n)
  {
    hide SpaceLength, HexValue;
    if 0 < n <= |h| {
      DigitsAreNoSpace(h[|h| - n..]);
    }
  }

  lemma DigitFirst(h: seq<u8>)
    requires h != [] && HexValue(h[0]).Some?
    ensures TrimLeft(h) == h
  {
  }

  lemma SizeLineParses(n: nat, e: seq<u8>)
    requires n < TWO64 && ExtensionOk(e)
    ensures ParseSize(Hex(n) + e) == Some(n)
  {
    hide TrimLeft, TrimRight, IsUtf8, BeforeSemicolon, HexDigits, Hex;
    var h := Hex(n);
    HexParses(n);
    HexThenExtension(h, e);
    BlanksBeforeSemicolon(e);
    assert HexValue(h[0]).Some?;
    DigitFirst(h + Blanks(e));
    BlanksTrimmed(h, Blanks(e));
    DigitsUntrimmed(h);
  }

  /** In a body that has `line` and a CR LF at `pos`, with no CR in the line, that is the CR LF found. */
  lemma LineFound(body: seq<u8>, pos: nat, line: seq<u8>)
    requires pos + |line| + 2 <= |body|
    requires body[pos..pos + |line|] == line && body[pos + |line|] == CR && body[pos + |line| + 1] == LF
    requires forall k :: 0 <= k < |line| ==> line[k] != CR
    ensures FindCrlf(body, pos) == Some(pos + |line|)
  {
    forall k | pos <= k < pos + |line| ensures body[k] != CR {
      assert body[k] == body[pos..pos + |line|][k - pos];
    }
  }

  /** One size line at `pos`. */
  lemma SizeLineAt(body: seq<u8>, pos: nat, n: nat, e: seq<u8>, tail: seq<u8>)
    requires pos <= |body| && body[pos..] == (Hex(n) + e) + (CRLF + tail)
    requires n < TWO64 && ExtensionOk(e)
    ensures var at := pos + |Hex(n) + e| + 2;
            FindCrlf(body, pos) == Some(at - 2) && ParseSize(body[pos..at - 2]) == Some(n)
            && at <= |body| && body[at..] == tail
  {
    hide Hex, ParseSize, FindCrlf, IsUtf8;
    var line := Hex(n) + e;
    TailAt(body, pos, line, CRLF + tail);
    TailAt(body, pos + |line|, CRLF, tail);
    NoBreak(n, e);
    LineFound(body, pos, line);
    SizeLineParses(n, e);
  }

  lemma NoBreak(n: nat, e: seq<u8>)
    requires ExtensionOk(e)
    ensures forall k :: 0 <= k < |Hex(n) + e| ==> (Hex(n) + e)[k] != CR
  {
    hide Hex;
    forall k | 0 <= k < |Hex(n) + e| ensures (Hex(n) + e)[k] != CR {
      if k < |Hex(n)| { assert HexValue(Hex(n)[k]).Some?; }
    }
  }

  lemma Reassociate(h: seq<u8>, e: seq<u8>, d: seq<u8>, rest: seq<u8>)
    ensures (h + e + CRLF + d + CRLF) + rest == (h + e) + (CRLF + (d + (CRLF + rest)))
    ensures |h + e + CRLF + d + CRLF| == |h + e| + 2 + |d| + 2
  {
  }

  lemma OneChunk(body: seq<u8>, pos: nat, c: Chunk, rest: seq<u8>)
    requires pos <= |body| && body[pos..] == EncodeChunk(c) + rest && ChunkOk(c)
    ensures pos + |EncodeChunk(c)| <= |body| && body[pos + |EncodeChunk(c)|..] == rest
    ensures Decode(body, pos) == Prepend(c.data, Decode(body, pos + |EncodeChunk(c)|))
  {
    hide Hex, ParseSize, FindCrlf, ExtensionOk, Prepend, Decode;
    var n := |c.data|;
    Reassociate(Hex(n), c.extension, c.data, rest);
    SizeLineAt(body, pos, n, c.extension, c.data + (CRLF + rest));
    var at := pos + |Hex(n) + c.extension| + 2;
    TailAt(body, at, c.data, CRLF + rest);
    TailAt(body, at + n, CRLF, rest);
    DecodeStep(body, pos, at, c.data);
  }

  lemma DecodeStep(body: seq<u8>, pos: nat, at: nat, data: seq<u8>)
    requires pos <= |body| && 2 <= at && FindCrlf(body, pos) == Some(at - 2)
    requires ParseSize(body[pos..at - 2]) == Some(|data|) && data != []
    requires at + |data| + 2 <= |body|
    requires body[at..at + |data|] == data && body[at + |data|..at + |data| + 2] == CRLF
    ensures Decode(body, pos) == Prepend(data, Decode(body, at + |data| + 2))
  {
    hide ParseSize, FindCrlf, Prepend;
  }

  lemma LastChunk(body: seq<u8>, pos: nat, trailer: seq<u8>)
    requires pos <= |body| && body[pos..] == Hex(0) + CRLF + trailer
    ensures Decode(body, pos) == Ok([])
  {
    hide Hex, ParseSize, FindCrlf, Prepend;
    assert (Hex(0) + []) + (CRLF + trailer) == Hex(0) + CRLF + trailer;
    SizeLineAt(body, pos, 0, [], trailer);
  }

  lemma {:induction false} DecodeFrom(body: seq<u8>, pos: nat, cs: seq<Chunk>, trailer: seq<u8>)
    requires pos <= |body| && body[pos..] == Encode(cs, trailer)
    requires forall k :: 0 <= k < |cs| ==> ChunkOk(cs[k])
    ensures Decode(body, pos) == Ok(Joined(cs))
    decreases |cs|
  {
    hide EncodeChunk, ChunkOk, Hex, Decode;
    if cs == [] {
      LastChunk(body, pos, trailer);
    } else {
      OneChunk(body, pos, cs[0], Encode(cs[1..], trailer));
      DecodeFrom(body, pos + |EncodeChunk(cs[0])|, cs[1..], trailer);
    }
  }

  lemma TailAt(body: seq<u8>, pos: nat, x: seq<u8>, y: seq<u8>)
    requires pos <= |body| && body[pos..] == x + y
    ensures pos + |x| <= |body| && body[pos..pos + |x|] == x && body[pos + |x|..] == y
    ensures forall k :: 0 <= k < |x| ==> body[pos + k] == x[k]
  {
    assert forall k :: 0 <= k < |x| ==> body[pos + k] == body[pos..][k];
    assert body[pos..pos + |x|] == body[pos..][..|x|];
    assert body[pos + |x|..] == body[pos..][|x|..];
  }

  /** Decoding inverts the coding for every list of nonempty chunks, with any extensions and any trailer. */
  lemma DecodeInvertsEncode(cs: seq<Chunk>, trailer: seq<u8>)
    requires forall k :: 0 <= k < |cs| ==> ChunkOk(cs[k])
    ensures Decode(Encode(cs, trailer), 0) == Ok(Joined(cs))
  {
    assert Encode(cs, trailer)[0..] == Encode(cs, trailer);
    DecodeFrom(Encode(cs, trailer), 0, cs, trailer);
  }

  // ----- upper-case sizes -----

  function Upper(b: u8): u8 { if 97 <= b <= 122 then b - 32 else b }

  /** The same digits but for the case of letters. */
  predicate SameDigits(a: seq<u8>, b: seq<u8>) { |a| == |b| && forall k :: 0 <= k < |a| ==> Upper(a[k]) == Upper(b[k]) }

  lemma {:induction false} CaseOfDigits(a: seq<u8>, b: seq<u8>)
    requires SameDigits(a, b)
    ensures HexDigits(a) == HexDigits(b)
    decreases |a|
  {
    if a != [] {
      var n := |a| - 1;
      CaseOfDigits(a[..n], b[..n]);
      assert HexValue(a[n]) == HexValue(b[n]);
    }
  }

  /** A size line reads as its size in either case of its digits. */
  lemma SizeLineAnyCase(n: nat, digits: seq<u8>, e: seq<u8>)
    requires n < TWO64 && SameDigits(digits, Hex(n)) && ExtensionOk(e)
    ensures ParseSize(digits + e) == Some(n)
  {
    hide TrimLeft, TrimRight, IsUtf8, BeforeSemicolon, HexDigits, Hex, HexValue;
    HexParses(n);
    CaseOfDigits(digits, Hex(n));
    forall k | 0 <= k < |digits| ensures HexValue(digits[k]).Some? { CaseOfOne(digits[k], Hex(n)[k]); }
    HexThenExtension(digits, e);
    BlanksBeforeSemicolon(e);
    DigitFirst(digits + Blanks(e));
    BlanksTrimmed(digits, Blanks(e));
    DigitsUntrimmed(digits);
    DigitIsNoPlus(digits[0]);
  }

  lemma CaseOfOne(a: u8, b: u8)
    requires Upper(a) == Upper(b)
    ensures HexValue(a) == HexValue(b)
  {
  }

  lemma DigitIsNoPlus(b: u8)
    requires HexValue(b).Some?
    ensures b != 43
  {
  }

  // ----- bodies that are refused -----

  /** Chunks, with their terminators, and nothing behind them. */
  function Chunks(cs: seq<Chunk>): seq<u8> { if cs == [] then [] else EncodeChunk(cs[0]) + Chunks(cs[1..]) }

  /** After any number of good chunks decoding goes on with what follows them. */
  lemma {:induction false} GoodChunksThen(body: seq<u8>, pos: nat, cs: seq<Chunk>, rest: seq<u8>)
    requires pos <= |body| && body[pos..] == Chunks(cs) + rest
    requires forall k :: 0 <= k < |cs| ==> ChunkOk(cs[k])
    ensures pos + |Chunks(cs)| <= |body| && body[pos + |Chunks(cs)|..] == rest
    ensures Decode(body, pos) == Prepend(Joined(cs), Decode(body, pos + |Chunks(cs)|))
    decreases |cs|
  {
    hide EncodeChunk, ChunkOk, Hex, Decode;
    if cs == [] {
      PrependTwice([], [], Decode(body, pos));
      assert [] + rest == rest;
    } else {
      var more := Chunks(cs[1..]) + rest;
      assert body[pos..] == EncodeChunk(cs[0]) + more;
      OneChunk(body, pos, cs[0], more);
      GoodChunksThen(body, pos + |EncodeChunk(cs[0])|, cs[1..], rest);
      PrependTwice(cs[0].data, Joined(cs[1..]), Decode(body, pos + |Chunks(cs)|));
    }
  }

  lemma ErrorsPass(x: seq<u8>, e: ChunkError)
    ensures Prepend(x, Err(e)) == Err(e)
  {
  }

  /** A chunk with less data than its size says. */
  lemma TruncatedChunk(cs: seq<Chunk>, n: nat, e: seq<u8>, data: seq<u8>)
    requires (forall k :: 0 <= k < |cs| ==> ChunkOk(cs[k])) && |data| < n < TWO64 && ExtensionOk(e)
    ensures Decode(Chunks(cs) + ((Hex(n) + e) + (CRLF + data)), 0) == Err(Truncated)
  {
    hide *;
    var tail := (Hex(n) + e) + (CRLF + data);
    var body := Chunks(cs) + tail;
    var pos := |Chunks(cs)|;
    assert body[0..] == body;
    GoodChunksThen(body, 0, cs, tail);
    SizeLineAt(body, pos, n, e, data);
    TruncatedAt(body, pos, pos + |Hex(n) + e| + 2, n);
    ErrorsPass(Joined(cs), Truncated);
  }

  lemma TruncatedAt(body: seq<u8>, pos: nat, at: nat, n: nat)
    requires pos <= |body| && 2 <= at && FindCrlf(body, pos) == Some(at - 2)
    requires ParseSize(body[pos..at - 2]) == Some(n) && n > 0 && at + n > |body|
    ensures Decode(body, pos) == Err(Truncated)
  {
    hide ParseSize, FindCrlf, Prepend;
  }

  lemma BadSizeAt(body: seq<u8>, pos: nat, end: nat)
    requires pos <= |body| && FindCrlf(body, pos) == Some(end) && ParseSize(body[pos..end]).None?
    ensures Decode(body, pos) == Err(InvalidSize)
  {
    hide ParseSize, FindCrlf, Prepend;
  }

  /** A chunk whose data is not followed by a line break. */
  lemma BadTerminator(cs: seq<Chunk>, c: Chunk, after: seq<u8>)
    requires (forall k :: 0 <= k < |cs| ==> ChunkOk(cs[k])) && ChunkOk(c) && !(CRLF <= after)
    ensures Decode(Chunks(cs) + ((Hex(|c.data|) + c.extension) + (CRLF + (c.data + after))), 0) == Err(InvalidTerminator)
  {
    hide *;
    var tail := (Hex(|c.data|) + c.extension) + (CRLF + (c.data + after));
    var body := Chunks(cs) + tail;
    assert body[0..] == body;
    GoodChunksThen(body, 0, cs, tail);
    ChunkParts(c);
    BadTerminatorFrom(body, |Chunks(cs)|, Hex(|c.data|) + c.extension, c, after);
    ErrorsPass(Joined(cs), InvalidTerminator);
  }

  lemma BadTerminatorFrom(body: seq<u8>, pos: nat, line: seq<u8>, c: Chunk, after: seq<u8>)
    requires pos <= |body| && line == Hex(|c.data|) + c.extension && body[pos..] == line + (CRLF + (c.data + after))
    requires c.data != [] && |c.data| < TWO64 && ExtensionOk(c.extension) && !(CRLF <= after)
    ensures Decode(body, pos) == Err(InvalidTerminator)
  {
    hide *;
    SizeLineAt(body, pos, |c.data|, c.extension, c.data + after);
    var at := pos + |line| + 2;
    TailAt(body, at, c.data, after);
    NoTerminator(body, at + |c.data|, after);
    BadTerminatorAt(body, pos, at, |c.data|);
  }

  lemma ChunkParts(c: Chunk)
    requires ChunkOk(c)
    ensures c.data != [] && |c.data| < TWO64 && ExtensionOk(c.extension)
  {
  }

  lemma BadTerminatorAt(body: seq<u8>, pos: nat, at: nat, n: nat)
    requires pos <= |body| && 2 <= at && FindCrlf(body, pos) == Some(at - 2) && at + n <= |body|
    requires ParseSize(body[pos..at - 2]) == Some(n) && n > 0
    requires at + n + 2 > |body| || body[at + n..at + n + 2] != CRLF
    ensures Decode(body, pos) == Err(InvalidTerminator)
  {
    hide ParseSize, FindCrlf, Prepend;
  }

  lemma NoTerminator(body: seq<u8>, at: nat, after: seq<u8>)
    requires at <= |body| && body[at..] == after && !(CRLF <= after)
    ensures at + 2 > |body| || body[at..at + 2] != CRLF
  {
    if at + 2 <= |body| {
      assert body[at..at + 2] == after[..2];
    }
  }

  /** A size line that never ends. */
  lemma NoSizeLine(cs: seq<Chunk>, line: seq<u8>)
    requires (forall k :: 0 <= k < |cs| ==> ChunkOk(cs[k])) && forall k :: 0 <= k < |line| - 1 ==> !(line[k] == CR && line[k + 1] == LF)
    ensures Decode(Chunks(cs) + line, 0) == Err(InvalidBody)
  {
    hide Chunks, Hex, ParseSize, ChunkOk;
    var body := Chunks(cs) + line;
    assert body[0..] == body;
    GoodChunksThen(body, 0, cs, line);
    assert forall k :: 0 <= k < |line| ==> body[|Chunks(cs)| + k] == line[k];
    ErrorsPass(Joined(cs), InvalidBody);
  }

  /** A size line that is no size. */
  lemma BadSizeLine(cs: seq<Chunk>, line: seq<u8>, after: seq<u8>)
    requires (forall k :: 0 <= k < |cs| ==> ChunkOk(cs[k])) && (forall k :: 0 <= k < |line| ==> line[k] != CR) && ParseSize(line).None?
    ensures Decode(Chunks(cs) + (line + (CRLF + after)), 0) == Err(InvalidSize)
  {
    hide Chunks, Hex, ParseSize, FindCrlf, ChunkOk, Decode, Prepend, Joined;
    var body := Chunks(cs) + (line + (CRLF + after));
    var pos := |Chunks(cs)|;
    assert body[0..] == body;
    GoodChunksThen(body, 0, cs, line + (CRLF + after));
    TailAt(body, pos, line, CRLF + after);
    TailAt(body, pos + |line|, CRLF, after);
    assert body[pos + |line|] == CRLF[0] && body[pos + |line| + 1] == CRLF[1];
    LineFound(body, pos, line);
    BadSizeAt(body, pos, pos + |line|);
    ErrorsPass(Joined(cs), InvalidSize);
  }
}
