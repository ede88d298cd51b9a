/** Disassembled text assembles back (aeon-vm/src/inst.rs, aeon-vm/src/asm.rs). */
module AsmText {
  import opened Words
  import opened Inst
  import opened Asm
  import opened AsmProof

  // ----- printing -----

  function DecimalDigit(d: nat): char
    requires d < 10
  {
    ('0' as int + d) as char
  }

  /** `{}` of an unsigned integer. */
  function Print(n: nat): (s: string)
    ensures s != "" && forall k :: 0 <= k < |s| ==> '0' <= s[k] <= '9'
  {
    if n < 10 then [DecimalDigit(n)] else Print(n / 10) + [DecimalDigit(n % 10)]
  }

  /** `{:+}` of a signed integer. */
  function PrintSigned(n: int): string { if n >= 0 then "+" + Print(n) else "-" + Print(-n) }

  function Reg(r: u8): string { "r" + Print(r) }

  function One(op: string, a: string): string { op + " " + a }

  function Two(op: string, a: string, b: string): string { op + " " + a + ", " + b }

  function Three(op: string, a: string, b: string, c: string): string { op + " " + a + ", " + b + ", " + c }

  function Disassemble(i: Inst): string {
    match i
    case LoadImm(dst, val) => Two("load", Reg(dst), Print(val))
    case Mov(dst, src) => Two("mov", Reg(dst), Reg(src))
    case Add(dst, a, b) => Three("add", Reg(dst), Reg(a), Reg(b))
    case Sub(dst, a, b) => Three("sub", Reg(dst), Reg(a), Reg(b))
    case Mul(dst, a, b) => Three("mul", Reg(dst), Reg(a), Reg(b))
    case Jz(cond, off) => Two("jz", Reg(cond), PrintSigned(off))
    case Jump(offset) => One("jump", PrintSigned(offset))
    case Call(target) => One("call", Print(target))
    case Ret => "ret"
    case Print(r) => One("print", Reg(r))
    case LoadMem(dst, addr) => Two("loadmem", Reg(dst), Reg(addr))
    case StoreMem(addr, src) => Two("storemem", Reg(addr), Reg(src))
    case Alloc(dst, size) => Two("alloc", Reg(dst), Reg(size))
    case Halt => "halt"
    case Syscall(num) => One("syscall", Print(num))
  }

  function Joined(lines: seq<string>): string {
    if lines == [] then "" else if |lines| == 1 then lines[0] else lines[0] + "\n" + Joined(lines[1..])
  }

  function Listing(p: seq<Inst>): (r: seq<string>)
    ensures |r| == |p|
  {
    seq(|p|, k requires 0 <= k < |p| => Disassemble(p[k]))
  }

  // ----- numbers read back -----

  lemma {:induction false} PrintReads(n: nat, max: nat)
    requires n <= max
    ensures DigitsValue(Print(n), 10, max) == Some(n)
  {
    if n < 10 {
      assert [DecimalDigit(n)][..0] == "";
    } else {
      PrintReads(n / 10, max);
      assert Print(n)[..|Print(n)| - 1] == Print(n / 10);
    }
  }

  lemma DecimalReads(n: nat, max: nat)
    requires n <= max
    ensures ParseRadix(Print(n), 10, max) == Some(n)
  {
    PrintReads(n, max);
    assert '0' <= Print(n)[0] <= '9';
  }

  lemma RegReads(r: u8)
    ensures ParseReg(Reg(r)) == Ok(r)
  {
    DecimalReads(r, 255);
    assert Lower(Reg(r)) == Reg(r);
    assert Reg(r)[1..] == Print(r);
  }

  lemma U64Reads(v: u64)
    ensures ParseU64(Print(v)) == Ok(v)
  {
    DecimalReads(v, TWO64 - 1);
    assert |Print(v)| >= 2 ==> '0' <= Print(v)[1] <= '9';
  }

  // ----- words -----

  /** Anything that neither separates words nor ends a label nor starts a comment. */
  predicate WordChar(c: char) { !IsSeparator(c) && c != ';' && c != ':' }

  predicate Word(w: string) { w != "" && forall k :: 0 <= k < |w| ==> WordChar(w[k]) }

  lemma {:induction false} WordLengthOf(w: string, rest: string)
    requires forall k :: 0 <= k < |w| ==> WordChar(w[k])
    requires rest == "" || IsSeparator(rest[0])
    ensures WordLength(w + rest) == |w|
    decreases |w|
  {
    if w == "" {
      assert w + rest == rest;
    } else {
      assert (w + rest)[0] == w[0] && (w + rest)[1..] == w[1..] + rest;
      WordLengthOf(w[1..], rest);
    }
  }

  lemma FirstToken(w: string, rest: string)
    requires Word(w) && (rest == "" || IsSeparator(rest[0]))
    ensures Tokens(w + rest) == [w] + Tokens(rest)
  {
    WordLengthOf(w, rest);
    assert (w + rest)[0] == w[0] && !IsSeparator(w[0]);
    assert (w + rest)[..|w|] == w && (w + rest)[|w|..] == rest;
  }

  lemma OneToken(w: string)
    requires Word(w)
    ensures Tokens(w) == [w]
  {
    FirstToken(w, "");
    assert w + "" == w;
  }

  lemma SkipSpace(rest: string)
    ensures Tokens(" " + rest) == Tokens(rest) && Tokens(", " + rest) == Tokens(rest)
  {
    assert (" " + rest)[1..] == rest && (", " + rest)[1..] == " " + rest;
  }

  lemma TokensOfOne(op: string, a: string)
    requires Word(op) && Word(a)
    ensures Tokens(One(op, a)) == [op, a]
  {
    assert One(op, a) == op + (" " + a);
    FirstToken(op, " " + a);
    SkipSpace(a);
    OneToken(a);
  }

  lemma TokensOfTwo(op: string, a: string, b: string)
    requires Word(op) && Word(a) && Word(b)
    ensures Tokens(Two(op, a, b)) == [op, a, b]
  {
    assert Two(op, a, b) == op + (" " + (a + (", " + b)));
    FirstToken(op, " " + (a + (", " + b)));
    SkipSpace(a + (", " + b));
    FirstToken(a, ", " + b);
    SkipSpace(b);
    OneToken(b);
  }

  lemma TokensOfThree(op: string, a: string, b: string, c: string)
    requires Word(op) && Word(a) && Word(b) && Word(c)
    ensures Tokens(Three(op, a, b, c)) == [op, a, b, c]
  {
    hide Tokens, Word;
    var tail := a + (", " + (b + (", " + c)));
    assert Three(op, a, b, c) == op + (" " + tail);
    FirstToken(op, " " + tail);
    SkipSpace(tail);
    FirstToken(a, ", " + (b + (", " + c)));
    SkipSpace(b + (", " + c));
    FirstToken(b, ", " + c);
    SkipSpace(c);
    OneToken(c);
  }

  // ----- lines -----

  /** A line of words: it starts and ends with one, and spaces and commas are all there is besides. */
  ghost predicate Plainly(s: string) {
    && s != "" && WordChar(s[0]) && WordChar(s[|s| - 1])
    && forall k :: 0 <= k < |s| ==> WordChar(s[k]) || s[k] == ' ' || s[k] == ','
  }

  lemma {:induction false} NoChar(s: string, c: char)
    requires forall k :: 0 <= k < |s| ==> s[k] != c
    ensures IndexOf(s, c) == |s|
    decreases |s|
  {
    if s != "" { NoChar(s[1..], c); }
  }

  lemma PlainlyParses(s: string)
    requires Plainly(s) && Tokens(s) != []
    ensures ParseLine(s) == match ParseTokens(Tokens(s)) case Ok(raw) => Ok(Code(raw)) case Err(e) => Err(e)
  {
    hide Tokens, ParseTokens;
    NoChar(s, ';');
    assert StripComment(s) == s;
    assert Trim(s) == s;
  }

  lemma PlainlyOne(op: string, a: string)
    requires Word(op) && Word(a)
    ensures Plainly(One(op, a))
  {
  }

  lemma PlainlyTwo(op: string, a: string, b: string)
    requires Word(op) && Word(a) && Word(b)
    ensures Plainly(Two(op, a, b))
  {
  }

  lemma PlainlyThree(op: string, a: string, b: string, c: string)
    requires Word(op) && Word(a) && Word(b) && Word(c)
    ensures Plainly(Three(op, a, b, c))
  {
  }

  lemma OperandWords(r: u8, v: nat, off: int)
    ensures Word(Reg(r)) && Word(Print(v)) && Word(PrintSigned(off))
    ensures NoCapitals(Reg(r)) && NoCapitals(Print(v)) && NoCapitals(PrintSigned(off))
  {
  }

  /** What the assembler reads where an instruction was printed. */
  function ReadBack(i: Inst): Result<RawInst, ErrorKind> {
    match i
    case Jz(cond, off) => Ok(JzLabel(cond, PrintSigned(off)))
    case Jump(_) => Err(UnknownInstruction)
    case Call(target) => Ok(CallLabel(Print(target)))
    case _ => Ok(Resolved(i))
  }

  predicate NoCapitals(w: string) { forall k :: 0 <= k < |w| ==> !('A' <= w[k] <= 'Z') }

  lemma LowerWord(w: string)
    requires NoCapitals(w)
    ensures Lower(w) == w
  {
  }

  lemma TwoOperands(op: string, a: string, b: string)
    requires Word(op) && Word(a) && Word(b)
    ensures Plainly(Two(op, a, b))
    ensures ParseLine(Two(op, a, b)) == match ParseTokens([op, a, b]) case Ok(raw) => Ok(Code(raw)) case Err(e) => Err(e)
  {
    hide Tokens, Plainly, ParseLine, Two, ParseTokens;
    TokensOfTwo(op, a, b);
    PlainlyTwo(op, a, b);
    PlainlyParses(Two(op, a, b));
  }

  lemma ThreeOperands(op: string, a: string, b: string, c: string)
    requires Word(op) && Word(a) && Word(b) && Word(c)
    ensures Plainly(Three(op, a, b, c))
    ensures ParseLine(Three(op, a, b, c)) == match ParseTokens([op, a, b, c]) case Ok(raw) => Ok(Code(raw)) case Err(e) => Err(e)
  {
    hide Tokens, Plainly, ParseLine, Three, ParseTokens;
    TokensOfThree(op, a, b, c);
    PlainlyThree(op, a, b, c);
    PlainlyParses(Three(op, a, b, c));
  }

  lemma ThreeReads(i: Inst, op: string)
    requires (i.Add? && op == "add") || (i.Sub? && op == "sub") || (i.Mul? && op == "mul")
    ensures Plainly(Disassemble(i)) && ParseLine(Disassemble(i)) == Ok(Code(Resolved(i)))
  {
    hide Lower, ParseReg, Reg, Plainly, ParseLine, Three, Word;
    OperandWords(i.dst, 0, 0);
    OperandWords(i.a, 0, 0);
    OperandWords(i.b, 0, 0);
    PlainMnemonic(op);
    RegReads(i.dst);
    RegReads(i.a);
    RegReads(i.b);
    ThreeOperands(op, Reg(i.dst), Reg(i.a), Reg(i.b));
  }

  lemma PlainMnemonic(op: string)
    requires op in ["add", "sub", "mul", "mov", "loadmem", "storemem", "alloc", "load"]
    ensures Word(op) && Lower(op) == op
  {
    LowerWord(op);
  }

  lemma TwoReads(i: Inst, op: string, x: u8, y: u8)
    requires (i == Mov(x, y) && op == "mov") || (i == LoadMem(x, y) && op == "loadmem")
             || (i == StoreMem(x, y) && op == "storemem") || (i == Alloc(x, y) && op == "alloc")
    ensures Plainly(Disassemble(i)) && ParseLine(Disassemble(i)) == Ok(Code(Resolved(i)))
  {
    hide Lower, ParseReg, Reg, Plainly, ParseLine, Two, Word;
    OperandWords(x, 0, 0);
    OperandWords(y, 0, 0);
    PlainMnemonic(op);
    RegReads(x);
    RegReads(y);
    TwoOperands(op, Reg(x), Reg(y));
  }

  lemma LoadReads(dst: u8, val: u64)
    ensures Plainly(Disassemble(LoadImm(dst, val))) && ParseLine(Disassemble(LoadImm(dst, val))) == Ok(Code(Resolved(LoadImm(dst, val))))
  {
    hide Lower, ParseReg, ParseU64, Reg, Print, Plainly, ParseLine, Two, Word;
    OperandWords(dst, val, 0);
    PlainMnemonic("load");
    RegReads(dst);
    U64Reads(val);
    TwoOperands("load", Reg(dst), Print(val));
  }

  lemma JzReads(cond: u8, off: isize)
    ensures Plainly(Disassemble(Jz(cond, off))) && ParseLine(Disassemble(Jz(cond, off))) == Ok(Code(JzLabel(cond, PrintSigned(off))))
  {
    hide Lower, ParseReg, Reg, PrintSigned, Plainly, ParseLine, Two, Word;
    OperandWords(cond, 0, off);
    Mnemonics();
    LowerWord(PrintSigned(off));
    RegReads(cond);
    TwoOperands("jz", Reg(cond), PrintSigned(off));
  }

  lemma OneOperand(op: string, a: string)
    requires Word(op) && Word(a)
    ensures Plainly(One(op, a))
    ensures ParseLine(One(op, a)) == match ParseTokens([op, a]) case Ok(raw) => Ok(Code(raw)) case Err(e) => Err(e)
  {
    hide Tokens, Plainly, ParseLine, One, ParseTokens;
    TokensOfOne(op, a);
    PlainlyOne(op, a);
    PlainlyParses(One(op, a));
  }

  lemma OneReads(i: Inst)
    requires i.Jump? || i.Call? || i.Print? || i.Syscall?
    ensures Plainly(Disassemble(i))
    ensures ParseLine(Disassemble(i)) == match ReadBack(i) case Ok(raw) => Ok(Code(raw)) case Err(e) => Err(e)
  {
    hide Lower, ParseReg, ParseU64, Reg, Print, PrintSigned, Plainly, ParseLine, One, Word;
    match i
    case Jump(offset) =>
      OperandWords(0, 0, offset);
      Mnemonics();
      OneOperand("jump", PrintSigned(offset));
    case Call(target) =>
      OperandWords(0, target, 0);
      Mnemonics();
      LowerWord("call");
      LowerWord(Print(target));
      OneOperand("call", Print(target));
    case Print(r) =>
      OperandWords(r, 0, 0);
      Mnemonics();
      RegReads(r);
      OneOperand("print", Reg(r));
    case Syscall(num) =>
      OperandWords(0, num, 0);
      Mnemonics();
      U64Reads(num);
      OneOperand("syscall", Print(num));
    case _ =>
  }

  lemma Mnemonics()
    ensures Word("jump") && Word("call") && Word("print") && Word("syscall") && Word("jmp") && Word("jz")
    ensures Lower("jump") == "jump" && Lower("call") == "call" && Lower("print") == "print" && Lower("syscall") == "syscall"
    ensures Lower("jmp") == "jmp" && Lower("jz") == "jz"
  {
    LowerWord("jump");
    LowerWord("call");
    LowerWord("print");
    LowerWord("syscall");
    LowerWord("jmp");
    LowerWord("jz");
  }

  lemma BareReads(i: Inst)
    requires i.Ret? || i.Halt?
    ensures Plainly(Disassemble(i)) && ParseLine(Disassemble(i)) == Ok(Code(Resolved(i)))
  {
    hide Lower, Tokens, ParseLine;
    LowerWord(Disassemble(i));
    OneToken(Disassemble(i));
    PlainlyParses(Disassemble(i));
  }

  /** Every printed instruction is one plain line, read back as `ReadBack` says. */
  lemma LineReads(i: Inst)
    ensures Plainly(Disassemble(i))
    ensures ParseLine(Disassemble(i)) == match ReadBack(i) case Ok(raw) => Ok(Code(raw)) case Err(e) => Err(e)
  {
    hide Disassemble, ParseLine, Plainly;
    match i
    case LoadImm(dst, val) => LoadReads(dst, val);
    case Mov(dst, src) => TwoReads(i, "mov", dst, src);
    case Add(_, _, _) => ThreeReads(i, "add");
    case Sub(_, _, _) => ThreeReads(i, "sub");
    case Mul(_, _, _) => ThreeReads(i, "mul");
    case Jz(cond, off) => JzReads(cond, off);
    case Jump(_) => OneReads(i);
    case Call(_) => OneReads(i);
    case Ret => BareReads(i);
    case Print(_) => OneReads(i);
    case LoadMem(dst, addr) => TwoReads(i, "loadmem", dst, addr);
    case StoreMem(addr, src) => TwoReads(i, "storemem", addr, src);
    case Alloc(dst, size) => TwoReads(i, "alloc", dst, size);
    case Halt => BareReads(i);
    case Syscall(_) => OneReads(i);
  }

  // ----- whole listings -----

  /** Text that stays one line between line breaks. */
  predicate OneLine(s: string) { s != "" && s[|s| - 1] != '\r' && forall k :: 0 <= k < |s| ==> s[k] != '\n' }

  lemma {:induction false} LinesOfJoined(lines: seq<string>)
    requires forall k :: 0 <= k < |lines| ==> OneLine(lines[k])
    ensures Lines(Joined(lines)) == lines
    decreases |lines|
  {
    if lines != [] {
      var first := lines[0];
      assert OneLine(first);
      NoChar(first, '\n');
      if |lines| == 1 {
        assert lines == [first];
      } else {
        var rest := Joined(lines[1..]);
        var s := first + "\n" + rest;
        LinesOfJoined(lines[1..]);
        FirstBreak(first, rest);
        assert s[..|first|] == first && s[|first| + 1..] == rest;
        assert StripCr(first) == first;
        assert lines == [first] + lines[1..];
      }
    }
  }

  lemma {:induction false} FirstBreak(a: string, b: string)
    requires forall k :: 0 <= k < |a| ==> a[k] != '\n'
    ensures IndexOf(a + "\n" + b, '\n') == |a|
    decreases |a|
  {
    var s := a + "\n" + b;
    if a != "" {
      assert s[0] == a[0] && s[1..] == a[1..] + "\n" + b;
      FirstBreak(a[1..], b);
    }
  }

  lemma {:induction false} ListingCollects(p: seq<Inst>, i: nat, raw: seq<(nat, RawInst)>)
    requires i <= |p| && |raw| == i
    requires forall k :: 0 <= k < i ==> ReadBack(p[k]) == Ok(raw[k].1)
    ensures match Collect(Listing(p), i, map[], raw)
            case Ok(r) => r.0 == map[] && |r.1| == |p| && forall k :: 0 <= k < |p| ==> ReadBack(p[k]) == Ok(r.1[k].1)
            case Err(_) => exists k :: 0 <= k < |p| && p[k].Jump?
    decreases |p| - i
  {
    hide ParseLine, Disassemble;
    if i < |p| {
      LineReads(p[i]);
      if ReadBack(p[i]).Ok? {
        ListingCollects(p, i + 1, raw + [(i + 1, ReadBack(p[i]).value)]);
      }
    }
  }

  lemma PlainIsOneLine(s: string)
    requires Plainly(s)
    ensures OneLine(s)
  {
  }

  /** Assembling the disassembly of a program returns the program exactly when it has no jz, jump or call. */
  lemma ListingRoundTrip(p: seq<Inst>)
    ensures AssembleText(Joined(Listing(p))) == Ok(p) <==> forall k :: 0 <= k < |p| ==> Plain(p[k])
    ensures AssembleText(Joined(Listing(p))).Ok? ==> AssembleText(Joined(Listing(p))) == Ok(p)
  {
    hide Disassemble, Lines, Collect, Joined, ResolveAll;
    forall k | 0 <= k < |p| ensures OneLine(Listing(p)[k]) {
      LineReads(p[k]);
      PlainIsOneLine(Listing(p)[k]);
    }
    LinesOfJoined(Listing(p));
    ListingCollects(p, 0, []);
    var pass1 := Collect(Listing(p), 0, map[], []);
    if pass1.Ok? {
      var raw := pass1.value.1;
      ResolvesEach(map[], raw, 0, []);
      var r := ResolveAll(map[], raw, 0, []);
      forall k | 0 <= k < |p|
        ensures ResolveOne(map[], k, raw[k].1) == (if Plain(p[k]) then Ok(p[k]) else ResolveOne(map[], k, raw[k].1))
        ensures !Plain(p[k]) ==> ResolveOne(map[], k, raw[k].1).Err?
      {
        assert ReadBack(p[k]) == Ok(raw[k].1);
      }
      if r.Ok? {
        assert forall k :: 0 <= k < |p| ==> r.value[k] == p[k];
        assert r.value == p;
      }
    }
  }
}
