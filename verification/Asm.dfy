/** The two-pass text assembler (aeon-vm/src/asm.rs) and the disassembler (aeon-vm/src/inst.rs). */
module Asm {
  import opened Words
  import opened Inst

  // ----- text -----

  /** `char::is_whitespace` */
  predicate IsWhitespace(c: char) {
    var n := c as int;
    9 <= n <= 13 || n == 0x20 || n == 0x85 || n == 0xA0 || n == 0x1680 || 0x2000 <= n <= 0x200A
    || n == 0x2028 || n == 0x2029 || n == 0x202F || n == 0x205F || n == 0x3000
  }

  predicate IsSeparator(c: char) { IsWhitespace(c) || c == ',' }

  function TrimStart(s: string): string { if s != "" && IsWhitespace(s[0]) then TrimStart(s[1..]) else s }

  function TrimEnd(s: string): string {
    if s != "" && IsWhitespace(s[|s| - 1]) then TrimEnd(s[..|s| - 1]) else s
  }

  function Trim(s: string): string { TrimEnd(TrimStart(s)) }

  function TrimColons(s: string): string { if s != "" && s[|s| - 1] == ':' then TrimColons(s[..|s| - 1]) else s }

  /** Lower-casing, on the ASCII letters. */
  function Lower(s: string): (r: string)
    ensures |r| == |s|
  {
    seq(|s|, i requires 0 <= i < |s| => LowerChar(s[i]))
  }

  function LowerChar(c: char): char { if 'A' <= c <= 'Z' then (c as int + 32) as char else c }

  /** The first position of `c`, or the length. */
  function IndexOf(s: string, c: char): (i: nat)
    ensures i <= |s| && (i < |s| ==> s[i] == c) && forall k :: 0 <= k < i ==> s[k] != c
  {
    if s == "" || s[0] == c then 0 else
      var i := IndexOf(s[1..], c);
      assert forall k :: 1 <= k < i + 1 ==> s[k] == s[1..][k - 1];
      i + 1
  }

  function StripComment(line: string): string { line[..IndexOf(line, ';')] }

  function StripCr(s: string): string { if s != "" && s[|s| - 1] == '\r' then s[..|s| - 1] else s }

  /** `str::lines` */
  function Lines(s: string): seq<string>
    decreases |s|
  {
    if s == "" then []
    else
      var i := IndexOf(s, '\n');
      if i == |s| then [s] else [StripCr(s[..i])] + Lines(s[i + 1..])
  }

  function WordLength(s: string): (n: nat)
    ensures n <= |s| && (n < |s| ==> IsSeparator(s[n])) && forall k :: 0 <= k < n ==> !IsSeparator(s[k])
  {
    if s == "" || IsSeparator(s[0]) then 0 else
      var n := WordLength(s[1..]);
      assert forall k :: 1 <= k < n + 1 ==> s[k] == s[1..][k - 1];
      n + 1
  }

  function Tokens(s: string): seq<string>
    decreases |s|
  {
    if s == "" then []
    else if IsSeparator(s[0]) then Tokens(s[1..])
    else
      var n := WordLength(s);
      [s[..n]] + Tokens(s[n..])
  }

  // ----- numbers -----

  function DigitValue(c: char, radix: nat): Option<nat> {
    var v := if '0' <= c <= '9' then c as int - '0' as int
             else if 'a' <= c <= 'z' then c as int - 'a' as int + 10
             else if 'A' <= c <= 'Z' then c as int - 'A' as int + 10
             else 99;
    if v < radix then Some(v) else None
  }

  function DigitsValue(s: string, radix: nat, max: nat): (r: Option<nat>)
    ensures r.Some? ==> r.value <= max
    decreases |s|
  {
    if s == "" then Some(0)
    else
      var front, d := DigitsValue(s[..|s| - 1], radix, max), DigitValue(s[|s| - 1], radix);
      if front.None? || d.None? || front.value * radix + d.value > max then None else Some(front.value * radix + d.value)
  }

  /** `from_str_radix`: one leading plus is allowed, no digits are not, and overflow is refused. */
  function ParseRadix(s: string, radix: nat, max: nat): (r: Option<nat>)
    ensures r.Some? ==> r.value <= max
  {
    var digits := if s != "" && s[0] == '+' then s[1..] else s;
    if digits == "" then None else DigitsValue(digits, radix, max)
  }

  datatype ErrorKind = EmptyLabel | EmptyInstruction | TooFewTokens | BadRegister | BadNumber | UnknownInstruction | UndefinedLabel(name: string)

  datatype AsmError = AsmError(line: nat, kind: ErrorKind)

  function ParseReg(t: string): Result<u8, ErrorKind> {
    var s := Lower(t);
    if s == "" || s[0] != 'r' then Err(BadRegister)
    else match ParseRadix(s[1..], 10, 255) case Some(n) => Ok(n) case None => Err(BadRegister)
  }

  function ParseU64(t: string): Result<u64, ErrorKind> {
    var n := if |t| >= 2 && t[0] == '0' && (t[1] == 'x' || t[1] == 'X') then ParseRadix(t[2..], 16, TWO64 - 1)
             else ParseRadix(t, 10, TWO64 - 1);
    match n case Some(v) => Ok(v) case None => Err(BadNumber)
  }

  // ----- instructions -----

  datatype RawInst =
    | Resolved(inst: Inst)
    | JzLabel(cond: u8, name: string)
    | JmpLabel(name: string)
    | CallLabel(name: string)

  function Regs2(t: seq<string>, f: (u8, u8) -> Inst): Result<RawInst, ErrorKind> {
    if |t| < 3 then Err(TooFewTokens)
    else
      var a, b := ParseReg(t[1]), ParseReg(t[2]);
      if a.Err? then Err(a.error) else if b.Err? then Err(b.error) else Ok(Resolved(f(a.value, b.value)))
  }

  function Regs3(t: seq<string>, f: (u8, u8, u8) -> Inst): Result<RawInst, ErrorKind> {
    if |t| < 4 then Err(TooFewTokens)
    else
      var a, b, c := ParseReg(t[1]), ParseReg(t[2]), ParseReg(t[3]);
      if a.Err? then Err(a.error) else if b.Err? then Err(b.error) else if c.Err? then Err(c.error)
      else Ok(Resolved(f(a.value, b.value, c.value)))
  }

  function ParseTokens(t: seq<string>): Result<RawInst, ErrorKind>
    requires t != []
  {
    var op := Lower(t[0]);
    if op == "load" then
      if |t| < 3 then Err(TooFewTokens)
      else
        var dst, val := ParseReg(t[1]), ParseU64(t[2]);
        if dst.Err? then Err(dst.error) else if val.Err? then Err(val.error) else Ok(Resolved(LoadImm(dst.value, val.value)))
    else if op == "mov" then Regs2(t, (dst: u8, src: u8) => Mov(dst, src))
    else if op == "add" then Regs3(t, (dst: u8, a: u8, b: u8) => Add(dst, a, b))
    else if op == "sub" then Regs3(t, (dst: u8, a: u8, b: u8) => Sub(dst, a, b))
    else if op == "mul" then Regs3(t, (dst: u8, a: u8, b: u8) => Mul(dst, a, b))
    else if op == "jz" then
      if |t| < 3 then Err(TooFewTokens)
      else
        var cond := ParseReg(t[1]);
        if cond.Err? then Err(cond.error) else Ok(JzLabel(cond.value, Lower(t[2])))
    else if op == "jmp" then if |t| < 2 then Err(TooFewTokens) else Ok(JmpLabel(Lower(t[1])))
    else if op == "call" then if |t| < 2 then Err(TooFewTokens) else Ok(CallLabel(Lower(t[1])))
    else if op == "ret" then Ok(Resolved(Ret))
    else if op == "alloc" then Regs2(t, (dst: u8, size: u8) => Alloc(dst, size))
    else if op == "loadmem" then Regs2(t, (dst: u8, addr: u8) => LoadMem(dst, addr))
    else if op == "storemem" then Regs2(t, (addr: u8, src: u8) => StoreMem(addr, src))
    else if op == "print" then
      if |t| < 2 then Err(TooFewTokens)
      else
        var r := ParseReg(t[1]);
        if r.Err? then Err(r.error) else Ok(Resolved(Print(r.value)))
    else if op == "syscall" then
      if |t| < 2 then Err(TooFewTokens)
      else
        var n := ParseU64(t[1]);
        if n.Err? then Err(n.error) else if n.value > 255 then Err(BadNumber) else Ok(Resolved(Syscall(n.value)))
    else if op == "halt" then Ok(Resolved(Halt))
    else Err(UnknownInstruction)
  }

  /** What one source line is. */
  datatype SourceLine = Blank | Label(name: string) | Code(raw: RawInst)

  function ParseLine(text: string): Result<SourceLine, ErrorKind> {
    var line := Trim(StripComment(text));
    if line == "" then Ok(Blank)
    else if line[|line| - 1] == ':' then
      var name := Lower(Trim(TrimColons(line)));
      if name == "" then Err(EmptyLabel) else Ok(Label(name))
    else
      var t := Tokens(line);
      // a line of nothing but commas has no tokens
      if t == [] then Err(EmptyInstruction)
      else
        var raw := ParseTokens(t);
        if raw.Err? then Err(raw.error) else Ok(Code(raw.value))
  }

  // ----- the two passes -----

  type Labels = map<string, nat>

  /** Pass 1 from line `i` on: labels name the number of instructions before them, later definitions win. */
  function Collect(lines: seq<string>, i: nat, labels: Labels, raw: seq<(nat, RawInst)>)
    : Result<(Labels, seq<(nat, RawInst)>), AsmError>
    requires i <= |lines|
    decreases |lines| - i
  {
    if i == |lines| then Ok((labels, raw))
    else
      var parsed := ParseLine(lines[i]);
      if parsed.Err? then Err(AsmError(i + 1, parsed.error))
      else
        match parsed.value
        case Blank => Collect(lines, i + 1, labels, raw)
        case Label(name) => Collect(lines, i + 1, labels[name := |raw|], raw)
        case Code(r) => Collect(lines, i + 1, labels, raw + [(i + 1, r)])
  }

  function ResolveOne(labels: Labels, i: nat, raw: RawInst): Result<Inst, ErrorKind> {
    match raw
    case Resolved(inst) => Ok(inst)
    case JzLabel(cond, name) => if name in labels then Ok(Jz(cond, Relative(labels[name], i))) else Err(UndefinedLabel(name))
    case JmpLabel(name) => if name in labels then Ok(Jump(Relative(labels[name], i))) else Err(UndefinedLabel(name))
    case CallLabel(name) => if name in labels then Ok(Call(Absolute(labels[name]))) else Err(UndefinedLabel(name))
  }

  /** `target as isize - i as isize`; both are instruction counts, far below 2^63. */
  function Relative(target: nat, i: nat): isize { if -TWO63 <= target - i < TWO63 then target - i else 0 }

  function Absolute(target: nat): usize { target % TWO64 }

  /** Pass 2 from instruction `i` on. */
  function ResolveAll(labels: Labels, raw: seq<(nat, RawInst)>, i: nat, done: seq<Inst>): Result<seq<Inst>, AsmError>
    requires i <= |raw|
    decreases |raw| - i
  {
    if i == |raw| then Ok(done)
    else
      var r := ResolveOne(labels, i, raw[i].1);
      if r.Err? then Err(AsmError(raw[i].0, r.error)) else ResolveAll(labels, raw, i + 1, done + [r.value])
  }

  function AssembleText(source: string): Result<seq<Inst>, AsmError> {
    var pass1 := Collect(Lines(source), 0, map[], []);
    if pass1.Err? then Err(pass1.error) else ResolveAll(pass1.value.0, pass1.value.1, 0, [])
  }

  method Assemble(source: string) returns (r: Result<seq<Inst>, AsmError>)
    ensures r == AssembleText(source)
  {
    hide ParseLine, Lines;
    var lines := Lines(source);
    var labels: Labels, raw: seq<(nat, RawInst)> := map[], [];
    var n := 0;
    while n < |lines|
      invariant 0 <= n <= |lines|
      invariant Collect(lines, n, labels, raw) == Collect(lines, 0, map[], [])
    {
      var parsed := ParseLine(lines[n]);
      if parsed.Err? {
        return Err(AsmError(n + 1, parsed.error));
      }
      match parsed.value {
        case Blank =>
        case Label(name) => labels := labels[name := |raw|];
        case Code(inst) => raw := raw + [(n + 1, inst)];
      }
      n := n + 1;
    }
    var instructions: seq<Inst> := [];
    var i := 0;
    while i < |raw|
      invariant 0 <= i <= |raw|
      invariant ResolveAll(labels, raw, i, instructions) == ResolveAll(labels, raw, 0, [])
    {
      var resolved := ResolveOne(labels, i, raw[i].1);
      if resolved.Err? {
        return Err(AsmError(raw[i].0, resolved.error));
      }
      instructions := instructions + [resolved.value];
      i := i + 1;
    }
    r := Ok(instructions);
  }
}
