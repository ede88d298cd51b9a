/** What labelled source text assembles to, and that letter case does not matter in it (aeon-vm/src/asm.rs). */
module AsmSource {
  import opened Words
  import opened Inst
  import opened Asm
  import opened AsmProof
  import opened AsmText

  // ----- labelled source -----

  /** A label, a comment line, an instruction that names no label, or a branch or call by name. */
  datatype Item =
    | Here(name: string)
    | Note(text: string)
    | Do(inst: Inst)
    | JzTo(cond: u8, name: string)
    | JmpTo(name: string)
    | CallTo(name: string)

  function PrintItem(x: Item): string {
    match x
    case Here(name) => name + ":"
    case Note(text) => ";" + text
    case Do(inst) => Disassemble(inst)
    case JzTo(cond, name) => Two("jz", Reg(cond), name)
    case JmpTo(name) => One("jmp", name)
    case CallTo(name) => One("call", name)
  }

  function Text(items: seq<Item>): (r: seq<string>)
    ensures |r| == |items|
  {
    seq(|items|, k requires 0 <= k < |items| => PrintItem(items[k]))
  }

  /** Names have no white space, comma, colon or semicolon; instructions other than branches and calls stand for themselves. */
  predicate Writable(x: Item) {
    if x.Do? then !x.inst.Jz? && !x.inst.Jump? && !x.inst.Call?
    else if x.Note? then OneLine(";" + x.text)
    else Word(x.name)
  }

  /** The item stands for an instruction. */
  predicate Emits(x: Item) { !x.Here? && !x.Note? }

  /** The same but for the case of ASCII letters. */
  predicate SameName(a: string, b: string) { Lower(a) == Lower(b) }

  /** How many of the first `k` items are instructions. */
  function Before(items: seq<Item>, k: nat): nat
    requires k <= |items|
  {
    if k == 0 then 0 else Before(items, k - 1) + if Emits(items[k - 1]) then 1 else 0
  }

  /** The last label of that name among the first `k` items. */
  function LastHere(items: seq<Item>, name: string, k: nat): (i: Option<nat>)
    requires k <= |items|
    ensures i.Some? ==> i.value < k && items[i.value].Here? && SameName(items[i.value].name, name)
    ensures i.Some? ==> forall j :: i.value < j < k && items[j].Here? ==> !SameName(items[j].name, name)
    ensures i.None? ==> forall j :: 0 <= j < k && items[j].Here? ==> !SameName(items[j].name, name)
  {
    if k == 0 then None
    else if items[k - 1].Here? && SameName(items[k - 1].name, name) then Some(k - 1)
    else LastHere(items, name, k - 1)
  }

  /** The number of instructions before the last label of that name. */
  function Target(items: seq<Item>, name: string): Option<nat> {
    var i := LastHere(items, name, |items|);
    if i.None? then None else Some(Before(items, i.value))
  }

  predicate Defined(items: seq<Item>, x: Item) { !Emits(x) || x.Do? || Target(items, x.name).Some? }

  /** The instruction item `k` stands for: branches are relative to it, calls absolute. */
  function Meaning(items: seq<Item>, k: nat): Inst
    requires k < |items| && Emits(items[k]) && Defined(items, items[k]) && |items| < TWO63
  {
    BeforeBound(items);
    match items[k]
    case Do(inst) => inst
    case JzTo(cond, name) => Jz(cond, Target(items, name).value - Before(items, k))
    case JmpTo(name) => Jump(Target(items, name).value - Before(items, k))
    case CallTo(name) => Call(Target(items, name).value)
  }

  lemma BeforeBound(items: seq<Item>)
    ensures forall k :: 0 <= k <= |items| ==> Before(items, k) <= k
    ensures forall i, j :: 0 <= i < j <= |items| && Emits(items[i]) ==> Before(items, i) < Before(items, j)
  {
    forall k | 0 <= k <= |items| ensures Before(items, k) <= k { BeforeAtMost(items, k); }
    forall i, j | 0 <= i < j <= |items| && Emits(items[i]) ensures Before(items, i) < Before(items, j) {
      BeforeGrows(items, i + 1, j);
    }
  }

  lemma {:induction false} BeforeAtMost(items: seq<Item>, k: nat)
    requires k <= |items|
    ensures Before(items, k) <= k
  {
    if k > 0 { BeforeAtMost(items, k - 1); }
  }

  lemma {:induction false} BeforeGrows(items: seq<Item>, i: nat, j: nat)
    requires i <= j <= |items|
    ensures Before(items, i) <= Before(items, j)
    decreases j
  {
    if i < j { BeforeGrows(items, i, j - 1); }
  }

  // ----- one line -----

  /** What the assembler makes of a printed item. */
  function ReadItem(x: Item): SourceLine {
    match x
    case Here(name) => Label(Lower(name))
    case Note(_) => Blank
    case Do(inst) => Code(Resolved(inst))
    case JzTo(cond, name) => Code(JzLabel(cond, Lower(name)))
    case JmpTo(name) => Code(JmpLabel(Lower(name)))
    case CallTo(name) => Code(CallLabel(Lower(name)))
  }

  lemma ItemReads(x: Item)
    requires Writable(x)
    ensures OneLine(PrintItem(x)) && ParseLine(PrintItem(x)) == Ok(ReadItem(x))
  {
    hide ParseLine, OneLine, Word, Lower, Disassemble, Reg, One, Two, ParseReg, Plainly;
    match x
    case Here(name) => LabelReads(name);
    case Note(text) => assert ParseLine(";" + text) == Ok(Blank) by { NoteReads(text); }
    case Do(inst) =>
      LineReads(inst);
      PlainIsOneLine(Disassemble(inst));
    case JzTo(cond, name) =>
      Mnemonics();
      OperandWords(cond, 0, 0);
      RegReads(cond);
      TwoOperands("jz", Reg(cond), name);
      PlainIsOneLine(PrintItem(x));
    case JmpTo(name) =>
      Mnemonics();
      OneOperand("jmp", name);
      PlainIsOneLine(PrintItem(x));
    case CallTo(name) =>
      Mnemonics();
      OneOperand("call", name);
      PlainIsOneLine(PrintItem(x));
  }

  lemma NoteReads(text: string)
    ensures ParseLine(";" + text) == Ok(Blank)
  {
    assert IndexOf(";" + text, ';') == 0;
  }

  lemma LabelReads(name: string)
    requires Word(name)
    ensures OneLine(name + ":") && ParseLine(name + ":") == Ok(Label(Lower(name)))
  {
    hide IsWhitespace;
    var line := name + ":";
    assert !IsWhitespace(':') && !IsWhitespace(name[0]) && WordChar(name[|name| - 1]) by { ColonIsNoSpace(name); }
    assert OneLine(line) by { NamesAreOneLine(name); }
    NoChar(line, ';');
    assert StripComment(line) == line;
    assert line[0] == name[0] && Trim(line) == line;
    assert line[..|line| - 1] == name;
    assert TrimColons(line) == TrimColons(name) == name;
    assert Trim(name) == name;
  }

  lemma ColonIsNoSpace(name: string)
    requires Word(name)
    ensures !IsWhitespace(':') && !IsWhitespace(name[0]) && !IsWhitespace(name[|name| - 1])
  {
    assert WordChar(name[0]) && WordChar(name[|name| - 1]);
  }

  lemma NamesAreOneLine(name: string)
    requires Word(name)
    ensures OneLine(name + ":")
  {
    forall k | 0 <= k < |name| ensures name[k] != '\n' { assert WordChar(name[k]); }
  }

  // ----- both passes over the whole text -----

  lemma {:induction false} CollectReads(lines: seq<string>, i: nat, labels: Labels, raw: seq<(nat, RawInst)>)
    requires i <= |lines| && forall k :: 0 <= k < |lines| ==> ParseLine(lines[k]).Ok?
    ensures Collect(lines, i, labels, raw).Ok?
    decreases |lines| - i
  {
    hide ParseLine;
    if i < |lines| {
      match ParseLine(lines[i]).value
      case Blank => CollectReads(lines, i + 1, labels, raw);
      case Label(name) => CollectReads(lines, i + 1, labels[name := |raw|], raw);
      case Code(r) => CollectReads(lines, i + 1, labels, raw + [(i + 1, r)]);
    }
  }

  lemma AllRead(items: seq<Item>)
    requires forall k :: 0 <= k < |items| ==> Writable(items[k])
    ensures forall k :: 0 <= k < |items| ==> ParseLine(Text(items)[k]) == Ok(ReadItem(items[k]))
    ensures Lines(Joined(Text(items))) == Text(items)
  {
    hide ParseLine, PrintItem, Lines, Joined, Writable, OneLine;
    forall k | 0 <= k < |items| ensures ParseLine(Text(items)[k]) == Ok(ReadItem(items[k])) && OneLine(Text(items)[k]) {
      ItemReads(items[k]);
    }
    LinesOfJoined(Text(items));
  }

  /** Lines and items count the same and define the same labels. */
  lemma {:induction false} CountsAgree(items: seq<Item>, lines: seq<string>, name: string, k: nat)
    requires |lines| == |items| && k <= |items|
    requires forall j :: 0 <= j < |items| ==> ParseLine(lines[j]) == Ok(ReadItem(items[j]))
    ensures CodeCount(lines, k) == Before(items, k)
    ensures LastDefinition(lines, Lower(name), k) == LastHere(items, name, k)
  {
    hide ParseLine, Lower;
    if k > 0 {
      CountsAgree(items, lines, name, k - 1);
      assert ParseLine(lines[k - 1]) == Ok(ReadItem(items[k - 1]));
    }
  }

  /** What pass 1 leaves for a printed source. */
  ghost predicate Read(items: seq<Item>, labels: Labels, raw: seq<(nat, RawInst)>) {
    && |raw| == Before(items, |items|)
    && (forall k :: 0 <= k < |items| && Emits(items[k]) ==>
          Before(items, k) < |raw| && raw[Before(items, k)] == (k + 1, ReadItem(items[k]).raw))
    && (forall i :: 0 <= i < |raw| ==>
          1 <= raw[i].0 <= |items| && Emits(items[raw[i].0 - 1]) && Before(items, raw[i].0 - 1) == i)
    && (forall name :: (Lower(name) in labels <==> Target(items, name).Some?)
                       && (Lower(name) in labels ==> labels[Lower(name)] == Target(items, name).value))
  }

  /** Raw instruction `i` comes from an item with `i` instructions before it. */
  ghost predicate From(items: seq<Item>, r: (nat, RawInst), i: nat) {
    && 1 <= r.0 <= |items| && Emits(items[r.0 - 1]) && Before(items, r.0 - 1) == i
    && ReadItem(items[r.0 - 1]) == Code(r.1)
  }

  lemma RawComesFrom(items: seq<Item>, lines: seq<string>, labels: Labels, raw: seq<(nat, RawInst)>)
    requires |lines| == |items| && forall j :: 0 <= j < |items| ==> ParseLine(lines[j]) == Ok(ReadItem(items[j]))
    requires Gathered(lines, |lines|, labels, raw)
    ensures |raw| == Before(items, |items|) && forall i :: 0 <= i < |raw| ==> From(items, raw[i], i)
  {
    hide ParseLine, ReadItem, Lower;
    CountsAgree(items, lines, "", |items|);
    forall i | 0 <= i < |raw| ensures From(items, raw[i], i) {
      assert RawFrom(lines, |lines|, raw[i], i);
      CountsAgree(items, lines, "", raw[i].0 - 1);
      CodeIsNoLabel(items[raw[i].0 - 1], raw[i].1);
    }
  }

  lemma RawHolds(items: seq<Item>, raw: seq<(nat, RawInst)>, k: nat)
    requires |raw| == Before(items, |items|) && forall i :: 0 <= i < |raw| ==> From(items, raw[i], i)
    requires k < |items| && Emits(items[k])
    ensures ReadItem(items[k]).Code? && Before(items, k) < |raw| && raw[Before(items, k)] == (k + 1, ReadItem(items[k]).raw)
  {
    hide ReadItem, Before;
    BeforeBound(items);
    var i := Before(items, k);
    assert From(items, raw[i], i);
    CodeIsNoLabel(items[k], raw[i].1);
  }

  lemma LabelsAgree(items: seq<Item>, lines: seq<string>, labels: Labels, raw: seq<(nat, RawInst)>, name: string)
    requires |lines| == |items| && forall j :: 0 <= j < |items| ==> ParseLine(lines[j]) == Ok(ReadItem(items[j]))
    requires Gathered(lines, |lines|, labels, raw)
    ensures Lower(name) in labels <==> Target(items, name).Some?
    ensures Lower(name) in labels ==> labels[Lower(name)] == Target(items, name).value
  {
    hide ParseLine, ReadItem, Lower;
    CountsAgree(items, lines, name, |items|);
    if Target(items, name).Some? {
      CountsAgree(items, lines, name, LastHere(items, name, |items|).value);
    }
  }

  lemma PassOne(items: seq<Item>)
    requires forall k :: 0 <= k < |items| ==> Writable(items[k])
    ensures Collect(Lines(Joined(Text(items))), 0, map[], []).Ok?
    ensures var (labels, raw) := Collect(Lines(Joined(Text(items))), 0, map[], []).value; Read(items, labels, raw)
  {
    hide ParseLine, PrintItem, Lines, Joined, Writable, ReadItem, Lower, Before, Target, Collect;
    var lines := Text(items);
    AllRead(items);
    CollectReads(lines, 0, map[], []);
    var (labels, raw) := Collect(lines, 0, map[], []).value;
    assert Gathered(lines, 0, map[], []) by { NothingGathered(lines); }
    CollectGathers(lines, 0, map[], []);
    RawComesFrom(items, lines, labels, raw);
    ItemsAreCode(items);
    forall k | 0 <= k < |items| && Emits(items[k])
      ensures Before(items, k) < |raw| && raw[Before(items, k)] == (k + 1, ReadItem(items[k]).raw)
    {
      RawHolds(items, raw, k);
    }
    forall name ensures Lower(name) in labels <==> Target(items, name).Some?
                ensures Lower(name) in labels ==> labels[Lower(name)] == Target(items, name).value
    {
      LabelsAgree(items, lines, labels, raw, name);
    }
    assert forall i :: 0 <= i < |raw| ==> From(items, raw[i], i);
  }

  lemma NothingGathered(lines: seq<string>)
    ensures Gathered(lines, 0, map[], [])
  {
  }

  lemma CodeIsNoLabel(x: Item, raw: RawInst)
    ensures ReadItem(x) == Code(raw) <==> Emits(x) && ReadItem(x).raw == raw
    ensures Emits(x) ==> ReadItem(x).Code?
  {
  }

  lemma ItemsAreCode(items: seq<Item>)
    ensures forall k :: 0 <= k < |items| && Emits(items[k]) ==> ReadItem(items[k]).Code?
  {
  }

  lemma Resolves(items: seq<Item>, labels: Labels, raw: seq<(nat, RawInst)>, k: nat)
    requires Read(items, labels, raw) && k < |items| && Emits(items[k]) && |items| < TWO63
    ensures Before(items, k) < |raw| && raw[Before(items, k)].0 == k + 1
    ensures var r := ResolveOne(labels, Before(items, k), raw[Before(items, k)].1);
            if Defined(items, items[k]) then r == Ok(Meaning(items, k)) else r == Err(UndefinedLabel(Lower(items[k].name)))
  {
    hide Lower, Before, Target;
    BeforeBound(items);
    TargetBound(items);
  }

  lemma TargetBound(items: seq<Item>)
    ensures forall name :: Target(items, name).Some? ==> Target(items, name).value <= |items|
  {
    BeforeBound(items);
  }

  /** The assembled text is the program its items stand for: every name is replaced by the number of instructions before its last
      definition, relative for jz and jmp, absolute for call. Names match whatever their case. */
  lemma SourceAssembles(items: seq<Item>)
    requires |items| < TWO63 && forall k :: 0 <= k < |items| ==> Writable(items[k])
    requires forall k :: 0 <= k < |items| ==> Defined(items, items[k])
    ensures var r := AssembleText(Joined(Text(items)));
            && r.Ok? && |r.value| == Before(items, |items|)
            && forall k :: 0 <= k < |items| && Emits(items[k]) ==>
                 Before(items, k) < |r.value| && r.value[Before(items, k)] == Meaning(items, k)
  {
    hide Lines, Joined, Collect, ResolveAll, ResolveOne, Writable, Defined, Meaning, Before;
    PassOne(items);
    var (labels, raw) := Collect(Lines(Joined(Text(items))), 0, map[], []).value;
    ResolvesEach(labels, raw, 0, []);
    forall i | 0 <= i < |raw| ensures ResolveOne(labels, i, raw[i].1).Ok? {
      Resolves(items, labels, raw, raw[i].0 - 1);
    }
    forall k | 0 <= k < |items| && Emits(items[k])
      ensures Before(items, k) < |raw| && ResolveOne(labels, Before(items, k), raw[Before(items, k)].1) == Ok(Meaning(items, k))
    {
      Resolves(items, labels, raw, k);
    }
  }

  lemma EarlierItem(items: seq<Item>, j: nat, k: nat)
    requires j < |items| && k < |items| && Before(items, j) < Before(items, k)
    ensures j < k
  {
    if k <= j { BeforeGrows(items, k, j); }
  }

  /** With undefined names it is refused, and the error names the first of them and its line. */
  lemma UndefinedIsRefused(items: seq<Item>, k: nat)
    requires |items| < TWO63 && forall j :: 0 <= j < |items| ==> Writable(items[j])
    requires k < |items| && !Defined(items, items[k]) && forall j :: 0 <= j < k ==> Defined(items, items[j])
    ensures AssembleText(Joined(Text(items))) == Err(AsmError(k + 1, UndefinedLabel(Lower(items[k].name))))
  {
    hide Lines, Joined, Collect, ResolveAll, ResolveOne, Writable, Meaning, Before, Lower, Target;
    PassOne(items);
    var (labels, raw) := Collect(Lines(Joined(Text(items))), 0, map[], []).value;
    ResolvesEach(labels, raw, 0, []);
    Resolves(items, labels, raw, k);
    var at := Before(items, k);
    BeforeBound(items);
    forall i | 0 <= i < at ensures ResolveOne(labels, i, raw[i].1).Ok? {
      var j := raw[i].0 - 1;
      assert Before(items, j) == i;
      EarlierItem(items, j, k);
      Resolves(items, labels, raw, j);
    }
  }

  // ----- lines that are refused -----

  /** The first line that cannot be read is reported with its number. */
  lemma {:induction false} BadLineIsReported(lines: seq<string>, i: nat, k: nat, labels: Labels, raw: seq<(nat, RawInst)>)
    requires i <= k < |lines| && ParseLine(lines[k]).Err? && forall j :: i <= j < k ==> ParseLine(lines[j]).Ok?
    ensures Collect(lines, i, labels, raw) == Err(AsmError(k + 1, ParseLine(lines[k]).error))
    decreases k - i
  {
    hide ParseLine;
    if i < k {
      match ParseLine(lines[i]).value
      case Blank => BadLineIsReported(lines, i + 1, k, labels, raw);
      case Label(name) => BadLineIsReported(lines, i + 1, k, labels[name := |raw|], raw);
      case Code(r) => BadLineIsReported(lines, i + 1, k, labels, raw + [(i + 1, r)]);
    }
  }

  predicate Mnemonic(w: string) {
    w in ["load", "mov", "add", "sub", "mul", "jz", "jmp", "call", "ret", "alloc", "loadmem", "storemem", "print", "syscall", "halt"]
  }

  /** A word alone: `ret` and `halt` are instructions, other mnemonics lack operands, anything else is unknown. */
  lemma BareWord(w: string)
    requires Word(w)
    ensures ParseLine(w) == if Lower(w) == "ret" then Ok(Code(Resolved(Ret)))
                            else if Lower(w) == "halt" then Ok(Code(Resolved(Halt)))
                            else if Mnemonic(Lower(w)) then Err(TooFewTokens)
                            else Err(UnknownInstruction)
  {
    hide Lower, Plainly, ParseLine, Tokens;
    OneToken(w);
    WordIsPlain(w);
    PlainlyParses(w);
  }

  lemma WordIsPlain(w: string)
    requires Word(w)
    ensures Plainly(w)
  {
  }

  /** An operand that is no register, and a call number beyond a byte. */
  lemma BadOperand(a: string)
    requires Word(a)
    ensures ParseReg(a).Err? ==> ParseLine(One("print", a)) == Err(BadRegister)
    ensures ParseU64(a).Err? || ParseU64(a).value > 255 ==> ParseLine(One("syscall", a)) == Err(BadNumber)
  {
    hide Lower, ParseLine, One, Word, Plainly;
    Mnemonics();
    OneOperand("print", a);
    OneOperand("syscall", a);
    RegErrors(a);
  }

  lemma RegErrors(a: string)
    ensures ParseReg(a).Err? ==> ParseReg(a).error == BadRegister
    ensures ParseU64(a).Err? ==> ParseU64(a).error == BadNumber
    ensures ParseReg(a).Ok? ==> a != "" && (a[0] == 'r' || a[0] == 'R') && ParseReg(a).value < 256
  {
    hide ParseRadix;
  }

  // ----- layout -----

  ghost predicate Space(s: string) { forall k :: 0 <= k < |s| ==> IsWhitespace(s[k]) }

  /** `line` is `bare` with white space around it and a comment behind it, each possibly missing. */
  ghost predicate Dressed(bare: string, line: string) {
    exists left, right, rest :: DressedAs(bare, line, left, right, rest)
  }

  ghost predicate DressedAs(bare: string, line: string, left: string, right: string, rest: string) {
    && Space(left) && Space(right) && (rest == "" || rest[0] == ';')
    && (forall k :: 0 <= k < |bare| ==> bare[k] != ';') && line == left + bare + right + rest
  }

  lemma {:induction false} FirstSemicolon(a: string, rest: string)
    requires (forall k :: 0 <= k < |a| ==> a[k] != ';') && (rest == "" || rest[0] == ';')
    ensures IndexOf(a + rest, ';') == |a|
    decreases |a|
  {
    if a == "" {
      assert a + rest == rest;
    } else {
      assert (a + rest)[0] == a[0] && (a + rest)[1..] == a[1..] + rest;
      FirstSemicolon(a[1..], rest);
    }
  }

  lemma {:induction false} LeftTrimmed(left: string, s: string)
    requires Space(left)
    ensures TrimStart(left + s) == TrimStart(s)
    decreases |left|
  {
    if left == "" {
      assert left + s == s;
    } else {
      assert (left + s)[0] == left[0] && (left + s)[1..] == left[1..] + s;
      LeftTrimmed(left[1..], s);
    }
  }

  lemma {:induction false} RightTrimmed(s: string, right: string)
    requires Space(right)
    ensures TrimEnd(s + right) == TrimEnd(s)
    decreases |right|
  {
    if right == "" {
      assert s + right == s;
    } else {
      var n := |right| - 1;
      assert (s + right)[|s + right| - 1] == right[n] && (s + right)[..|s + right| - 1] == s + right[..n];
      RightTrimmed(s, right[..n]);
    }
  }

  lemma {:induction false} StartOfBoth(s: string, right: string)
    requires Space(right)
    ensures TrimStart(s + right) == TrimStart(s) + right || (TrimStart(s) == "" && TrimStart(s + right) == "")
    decreases |s|
  {
    if s == "" {
      LeftTrimmed(right, "");
      assert s + right == right && right + "" == right;
    } else {
      assert (s + right)[0] == s[0] && (s + right)[1..] == s[1..] + right;
      if IsWhitespace(s[0]) { StartOfBoth(s[1..], right); }
    }
  }

  lemma BothTrimmed(left: string, s: string, right: string)
    requires Space(left) && Space(right)
    ensures Trim(left + s + right) == Trim(s)
  {
    assert left + s + right == left + (s + right);
    LeftTrimmed(left, s + right);
    StartOfBoth(s, right);
    RightTrimmed(TrimStart(s), right);
  }

  lemma DressedReads(bare: string, line: string)
    requires Dressed(bare, line)
    ensures ParseLine(line) == ParseLine(bare)
  {
    hide Trim, Space, IndexOf;
    var left, right, rest :| DressedAs(bare, line, left, right, rest);
    var all := left + bare + right;
    assert forall k :: 0 <= k < |all| ==> all[k] != ';' by { SpacesHaveNone(left); SpacesHaveNone(right); }
    FirstSemicolon(all, rest);
    assert line[..|all|] == all;
    BothTrimmed(left, bare, right);
    FirstSemicolon(bare, "");
    assert bare + "" == bare;
  }

  lemma SpacesHaveNone(s: string)
    requires Space(s)
    ensures forall k :: 0 <= k < |s| ==> s[k] != ';'
  {
  }

  lemma {:induction false} DressedCollects(bare: seq<string>, lines: seq<string>, i: nat, labels: Labels, raw: seq<(nat, RawInst)>)
    requires |bare| == |lines| && i <= |lines| && forall k :: 0 <= k < |lines| ==> Dressed(bare[k], lines[k])
    ensures Collect(lines, i, labels, raw) == Collect(bare, i, labels, raw)
    decreases |lines| - i
  {
    hide ParseLine, Dressed;
    if i < |lines| {
      DressedReads(bare[i], lines[i]);
      if ParseLine(lines[i]).Ok? {
        match ParseLine(lines[i]).value
        case Blank => DressedCollects(bare, lines, i + 1, labels, raw);
        case Label(name) => DressedCollects(bare, lines, i + 1, labels[name := |raw|], raw);
        case Code(r) => DressedCollects(bare, lines, i + 1, labels, raw + [(i + 1, r)]);
      }
    }
  }

  /** Indentation, trailing white space and comments behind a line change nothing. */
  lemma LayoutDoesNotMatter(bare: seq<string>, lines: seq<string>)
    requires |bare| == |lines| && forall k :: 0 <= k < |lines| ==> Dressed(bare[k], lines[k])
    requires forall k :: 0 <= k < |lines| ==> OneLine(bare[k]) && OneLine(lines[k])
    ensures AssembleText(Joined(lines)) == AssembleText(Joined(bare))
  {
    hide Lines, Joined, Collect, ResolveAll, Dressed, OneLine;
    LinesOfJoined(bare);
    LinesOfJoined(lines);
    DressedCollects(bare, lines, 0, map[], []);
  }

  // ----- letter case -----

  function LowerAll(t: seq<string>): (r: seq<string>)
    ensures |r| == |t|
  {
    seq(|t|, k requires 0 <= k < |t| => Lower(t[k]))
  }

  lemma LowerParts(s: string, i: nat)
    requires i <= |s|
    ensures Lower(s)[..i] == Lower(s[..i]) && Lower(s)[i..] == Lower(s[i..]) && Lower(Lower(s)) == Lower(s)
    ensures forall k :: 0 <= k < |s| ==> Lower(s)[k] == LowerChar(s[k])
  {
  }

  /** Lower-casing moves no character that is not a letter. */
  lemma SameKind(c: char)
    ensures IsWhitespace(LowerChar(c)) == IsWhitespace(c) && IsSeparator(LowerChar(c)) == IsSeparator(c)
    ensures (LowerChar(c) == ';' <==> c == ';') && (LowerChar(c) == ':' <==> c == ':') && (LowerChar(c) == '\n' <==> c == '\n')
    ensures (LowerChar(c) == '\r' <==> c == '\r') && (LowerChar(c) == '+' <==> c == '+') && (LowerChar(c) == '0' <==> c == '0')
  {
  }

  lemma {:induction false} LowerIndexOf(s: string, c: char)
    requires c == ';' || c == '\n'
    ensures IndexOf(Lower(s), c) == IndexOf(s, c)
    decreases |s|
  {
    hide LowerChar, Lower;
    if s != "" {
      LowerParts(s, 1);
      SameKind(s[0]);
      LowerIndexOf(s[1..], c);
    }
  }

  lemma {:induction false} LowerTrimStart(s: string)
    ensures TrimStart(Lower(s)) == Lower(TrimStart(s))
    decreases |s|
  {
    hide LowerChar, Lower, IsWhitespace;
    if s != "" {
      LowerParts(s, 1);
      SameKind(s[0]);
      LowerTrimStart(s[1..]);
    }
  }

  lemma {:induction false} LowerTrimEnd(s: string)
    ensures TrimEnd(Lower(s)) == Lower(TrimEnd(s))
    decreases |s|
  {
    hide LowerChar, Lower, IsWhitespace;
    if s != "" {
      LowerParts(s, |s| - 1);
      SameKind(s[|s| - 1]);
      LowerTrimEnd(s[..|s| - 1]);
    }
  }

  lemma LowerTrim(s: string)
    ensures Trim(Lower(s)) == Lower(Trim(s))
  {
    hide Lower;
    LowerTrimStart(s);
    LowerTrimEnd(TrimStart(s));
  }

  lemma {:induction false} LowerTrimColons(s: string)
    ensures TrimColons(Lower(s)) == Lower(TrimColons(s))
    decreases |s|
  {
    hide LowerChar, Lower;
    if s != "" {
      LowerParts(s, |s| - 1);
      SameKind(s[|s| - 1]);
      LowerTrimColons(s[..|s| - 1]);
    }
  }

  lemma {:induction false} LowerWordLength(s: string)
    ensures WordLength(Lower(s)) == WordLength(s)
    decreases |s|
  {
    hide LowerChar, Lower, IsSeparator;
    if s != "" {
      LowerParts(s, 1);
      SameKind(s[0]);
      LowerWordLength(s[1..]);
    }
  }

  lemma {:induction false} LowerTokens(s: string)
    ensures Tokens(Lower(s)) == LowerAll(Tokens(s))
    decreases |s|
  {
    hide LowerChar, Lower, IsSeparator;
    if s != "" {
      SameKind(s[0]);
      LowerParts(s, 1);
      if IsSeparator(s[0]) {
        LowerTokens(s[1..]);
      } else {
        var n := WordLength(s);
        LowerWordLength(s);
        LowerParts(s, n);
        LowerTokens(s[n..]);
        assert LowerAll([s[..n]] + Tokens(s[n..])) == [Lower(s[..n])] + LowerAll(Tokens(s[n..]));
      }
    }
  }

  lemma {:induction false} LowerLines(s: string)
    ensures Lines(Lower(s)) == LowerAll(Lines(s))
    decreases |s|
  {
    hide Lower, LowerChar;
    if s != "" {
      var i := IndexOf(s, '\n');
      LowerIndexOf(s, '\n');
      LowerParts(s, i);
      if i == |s| {
        assert LowerAll([s]) == [Lower(s)];
      } else {
        LowerParts(s, i + 1);
        LowerCr(s[..i]);
        LowerLines(s[i + 1..]);
        assert LowerAll([StripCr(s[..i])] + Lines(s[i + 1..])) == [Lower(StripCr(s[..i]))] + LowerAll(Lines(s[i + 1..]));
      }
    }
  }

  lemma LowerCr(s: string)
    ensures StripCr(Lower(s)) == Lower(StripCr(s))
  {
    hide LowerChar, Lower;
    if s != "" {
      LowerParts(s, |s| - 1);
      SameKind(s[|s| - 1]);
    }
  }

  lemma LowerDigit(c: char, radix: nat)
    ensures DigitValue(LowerChar(c), radix) == DigitValue(c, radix)
  {
  }

  lemma {:induction false} LowerDigits(s: string, radix: nat, max: nat)
    ensures DigitsValue(Lower(s), radix, max) == DigitsValue(s, radix, max)
    decreases |s|
  {
    hide LowerChar, Lower, DigitValue;
    if s != "" {
      LowerParts(s, |s| - 1);
      LowerDigit(s[|s| - 1], radix);
      LowerDigits(s[..|s| - 1], radix, max);
    }
  }

  lemma LowerRadix(s: string, radix: nat, max: nat)
    ensures ParseRadix(Lower(s), radix, max) == ParseRadix(s, radix, max)
  {
    hide LowerChar, Lower, DigitsValue;
    LowerDigits(s, radix, max);
    if s != "" {
      LowerParts(s, 1);
      SameKind(s[0]);
      LowerDigits(s[1..], radix, max);
    }
  }

  lemma LowerNumber(t: string)
    ensures ParseU64(Lower(t)) == ParseU64(t) && ParseReg(Lower(t)) == ParseReg(t)
  {
    hide ParseRadix, Lower, LowerChar;
    LowerParts(t, 0);
    LowerRadix(t, 10, TWO64 - 1);
    if |t| >= 2 {
      LowerParts(t, 2);
      LowerRadix(t[2..], 16, TWO64 - 1);
      SameKind(t[0]);
      LowerX(t[1]);
    }
  }

  lemma LowerX(c: char)
    ensures LowerChar(c) == 'x' || LowerChar(c) == 'X' <==> c == 'x' || c == 'X'
  {
  }

  lemma LowerOperands(t: seq<string>)
    ensures forall k :: 0 <= k < |t| ==> Lower(LowerAll(t)[k]) == Lower(t[k])
    ensures forall k :: 0 <= k < |t| ==> ParseReg(LowerAll(t)[k]) == ParseReg(t[k]) && ParseU64(LowerAll(t)[k]) == ParseU64(t[k])
  {
    hide ParseReg, ParseU64, LowerChar;
    forall k | 0 <= k < |t|
      ensures Lower(LowerAll(t)[k]) == Lower(t[k])
      ensures ParseReg(LowerAll(t)[k]) == ParseReg(t[k]) && ParseU64(LowerAll(t)[k]) == ParseU64(t[k])
    {
      LowerParts(t[k], 0);
      LowerNumber(t[k]);
    }
  }

  lemma LowerParses(t: seq<string>)
    requires t != []
    ensures ParseTokens(LowerAll(t)) == ParseTokens(t)
  {
    hide Lower, ParseReg, ParseU64, LowerAll;
    LowerOperands(t);
  }

  lemma LowerLine(text: string)
    ensures ParseLine(Lower(text)) == ParseLine(text)
  {
    hide Lower, LowerChar, Tokens, ParseTokens, Trim, TrimColons, IndexOf, LowerAll;
    var i := IndexOf(text, ';');
    LowerIndexOf(text, ';');
    LowerParts(text, i);
    LowerTrim(text[..i]);
    var line := Trim(text[..i]);
    assert StripComment(text) == text[..i] && Trim(StripComment(Lower(text))) == Lower(line);
    if line != "" {
      var n := |line| - 1;
      LowerParts(line, n);
      SameKind(line[n]);
      LowerTrimColons(line);
      LowerTrim(TrimColons(line));
      LowerParts(Trim(TrimColons(line)), 0);
      LowerTokens(line);
      if Tokens(line) != [] { LowerParses(Tokens(line)); }
    }
  }

  lemma {:induction false} LowerCollects(lines: seq<string>, i: nat, labels: Labels, raw: seq<(nat, RawInst)>)
    requires i <= |lines|
    ensures Collect(LowerAll(lines), i, labels, raw) == Collect(lines, i, labels, raw)
    decreases |lines| - i
  {
    hide ParseLine, Lower;
    if i < |lines| {
      LowerLine(lines[i]);
      if ParseLine(lines[i]).Ok? {
        match ParseLine(lines[i]).value
        case Blank => LowerCollects(lines, i + 1, labels, raw);
        case Label(name) => LowerCollects(lines, i + 1, labels[name := |raw|], raw);
        case Code(r) => LowerCollects(lines, i + 1, labels, raw + [(i + 1, r)]);
      }
    }
  }

  /** Mnemonics, registers, digits and labels are read alike in upper and lower case: any two texts that differ in the case of
      ASCII letters only assemble to the same program or the same error. */
  lemma CaseDoesNotMatter(a: string, b: string)
    requires Lower(a) == Lower(b)
    ensures AssembleText(a) == AssembleText(b)
  {
    hide Lower, Lines, Collect, ResolveAll;
    LowerLines(a);
    LowerLines(b);
    LowerCollects(Lines(a), 0, map[], []);
    LowerCollects(Lines(b), 0, map[], []);
  }

  // ----- how it is spelled -----

  lemma Spaced(op: string, a: string, b: string, c: string)
    ensures One(op, "r" + a) == op + " r" + a
    ensures Two(op, "r" + a, b) == op + " r" + a + ", " + b
    ensures Two(op, "r" + a, "r" + b) == op + " r" + a + ", r" + b
    ensures Three(op, "r" + a, "r" + b, "r" + c) == op + " r" + a + ", r" + b + ", r" + c
  {
  }

  /** The listing of every instruction: mnemonic, registers and numbers, in this order. */
  lemma Spelling(i: Inst)
    ensures Disassemble(i) ==
            match i
            case LoadImm(dst, val) => "load" + " r" + AsmText.Print(dst) + ", " + AsmText.Print(val)
            case Mov(dst, src) => "mov" + " r" + AsmText.Print(dst) + ", r" + AsmText.Print(src)
            case Add(dst, a, b) => "add" + " r" + AsmText.Print(dst) + ", r" + AsmText.Print(a) + ", r" + AsmText.Print(b)
            case Sub(dst, a, b) => "sub" + " r" + AsmText.Print(dst) + ", r" + AsmText.Print(a) + ", r" + AsmText.Print(b)
            case Mul(dst, a, b) => "mul" + " r" + AsmText.Print(dst) + ", r" + AsmText.Print(a) + ", r" + AsmText.Print(b)
            case Jz(cond, off) => "jz" + " r" + AsmText.Print(cond) + ", " + PrintSigned(off)
            case Jump(off) => "jump" + " " + PrintSigned(off)
            case Call(target) => "call" + " " + AsmText.Print(target)
            case Ret => "ret"
            case Print(r) => "print" + " r" + AsmText.Print(r)
            case LoadMem(dst, addr) => "loadmem" + " r" + AsmText.Print(dst) + ", r" + AsmText.Print(addr)
            case StoreMem(addr, src) => "storemem" + " r" + AsmText.Print(addr) + ", r" + AsmText.Print(src)
            case Alloc(dst, size) => "alloc" + " r" + AsmText.Print(dst) + ", r" + AsmText.Print(size)
            case Halt => "halt"
            case Syscall(num) => "syscall" + " " + AsmText.Print(num)
  {
    hide AsmText.Print, PrintSigned, One, Two, Three;
    match i
    case LoadImm(dst, val) => Spaced("load", AsmText.Print(dst), AsmText.Print(val), "");
    case Mov(dst, src) => Spaced("mov", AsmText.Print(dst), AsmText.Print(src), "");
    case Add(dst, a, b) => Spaced("add", AsmText.Print(dst), AsmText.Print(a), AsmText.Print(b));
    case Sub(dst, a, b) => Spaced("sub", AsmText.Print(dst), AsmText.Print(a), AsmText.Print(b));
    case Mul(dst, a, b) => Spaced("mul", AsmText.Print(dst), AsmText.Print(a), AsmText.Print(b));
    case Jz(cond, off) => Spaced("jz", AsmText.Print(cond), PrintSigned(off), "");
    case Jump(off) => Spelled1("jump", PrintSigned(off));
    case Call(target) => Spelled1("call", AsmText.Print(target));
    case Print(r) => Spaced("print", AsmText.Print(r), "", "");
    case LoadMem(dst, addr) => Spaced("loadmem", AsmText.Print(dst), AsmText.Print(addr), "");
    case StoreMem(addr, src) => Spaced("storemem", AsmText.Print(addr), AsmText.Print(src), "");
    case Alloc(dst, size) => Spaced("alloc", AsmText.Print(dst), AsmText.Print(size), "");
    case Syscall(num) => Spelled1("syscall", AsmText.Print(num));
    case _ =>
  }

  lemma Spelled1(op: string, a: string)
    ensures One(op, a) == op + " " + a
  {
  }

  /** Numbers beyond the bound are refused: there is no register 256, and no literal of more than 64 bits. */
  lemma {:induction false} TooBigIsRefused(n: nat, max: nat)
    requires n > max
    ensures DigitsValue(AsmText.Print(n), 10, max) == None
    decreases n
  {
    if n >= 10 {
      assert AsmText.Print(n)[..|AsmText.Print(n)| - 1] == AsmText.Print(n / 10);
      if n / 10 > max { TooBigIsRefused(n / 10, max); } else { PrintReads(n / 10, max); }
    } else {
      assert [DecimalDigit(n)][..0] == "";
    }
  }

  function HexChar(d: nat): char
    requires d < 16
  {
    if d < 10 then ('0' as int + d) as char else ('a' as int + d - 10) as char
  }

  lemma HexCharReads(d: nat)
    requires d < 16
    ensures DigitValue(HexChar(d), 16) == Some(d) && HexChar(d) != '+'
  {
  }

  /** Hexadecimal digits of `n`, least significant last. */
  function Hex(n: nat): (s: string)
    ensures s != ""
  {
    if n < 16 then [HexChar(n)] else Hex(n / 16) + [HexChar(n % 16)]
  }

  lemma {:induction false} HexReads(n: nat, max: nat)
    requires n <= max
    ensures DigitsValue(Hex(n), 16, max) == Some(n) && Hex(n)[0] != '+'
  {
    hide DigitValue, HexChar;
    HexCharReads(n % 16);
    if n < 16 {
      assert Hex(n)[..0] == "" && Hex(n)[0] == HexChar(n % 16);
    } else {
      HexReads(n / 16, max);
      assert Hex(n)[..|Hex(n)| - 1] == Hex(n / 16);
      assert Hex(n)[|Hex(n)| - 1] == HexChar(n % 16);
    }
  }

  lemma HexLiteralReads(v: u64)
    ensures ParseU64("0x" + Hex(v)) == Ok(v)
  {
    hide Hex, DigitsValue;
    HexReads(v, TWO64 - 1);
    assert ("0x" + Hex(v))[2..] == Hex(v);
  }
}
