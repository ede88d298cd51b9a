/** The compiler to basic blocks (aeon-vm/src/jit.rs): its output as a block graph, and what running that graph does. */
module BlockGraph {
  import opened Words
  import opened Inst
  import opened Ordered

  datatype Op = IAdd | ISub | IMul

  /** Values the builder emits; variable 0 holds the pointer to the register file. */
  datatype Expr =
    | IConst(n: u64)
    | UseVar(v: nat)
    | Binary(op: Op, l: Expr, r: Expr)
    | LoadReg(reg: u8)

  datatype Stmt = DefVar(v: nat, e: Expr) | StoreReg(reg: u8, v: nat)

  datatype Terminator = Jump(target: nat) | BrIfZero(v: nat, thn: nat, els: nat) | Return

  datatype Block = Block(params: nat, body: seq<Stmt>, end: Terminator)

  /** Blocks are named by the instruction they start at. */
  datatype Func = Func(entry: nat, blocks: map<nat, Block>)

  datatype State = State(vars: map<nat, u64>, mem: seq<u64>)

  function Eval(e: Expr, s: State): u64 {
    match e
    case IConst(n) => n
    case UseVar(v) => if v in s.vars then s.vars[v] else 0
    case Binary(IAdd, l, r) => WrapAdd(Eval(l, s), Eval(r, s))
    case Binary(ISub, l, r) => WrapSub(Eval(l, s), Eval(r, s))
    case Binary(IMul, l, r) => WrapMul(Eval(l, s), Eval(r, s))
    case LoadReg(reg) => if reg < |s.mem| then s.mem[reg] else 0
  }

  function Exec1(c: Stmt, s: State): State {
    match c
    case DefVar(v, e) => s.(vars := s.vars[v := Eval(e, s)])
    case StoreReg(reg, v) => if reg < |s.mem| then s.(mem := s.mem[reg := Eval(UseVar(v), s)]) else s
  }

  function Exec(body: seq<Stmt>, s: State): State
    decreases |body|
  {
    if body == [] then s else Exec(body[1..], Exec1(body[0], s))
  }

  lemma {:induction false} ExecAppend(a: seq<Stmt>, b: seq<Stmt>, s: State)
    ensures Exec(a + b, s) == Exec(b, Exec(a, s))
    decreases |a|
  {
    if a == [] {
      assert a + b == b;
    } else {
      assert (a + b)[0] == a[0] && (a + b)[1..] == a[1..] + b;
      ExecAppend(a[1..], b, Exec1(a[0], s));
    }
  }

  function Next(t: Terminator, s: State): nat
    requires !t.Return?
  {
    match t
    case Jump(target) => target
    case BrIfZero(v, thn, els) => if Eval(UseVar(v), s) == 0 then thn else els
  }

  /** The register file at the return, if it is reached within `fuel` blocks. */
  function RunBlocks(f: Func, b: nat, s: State, fuel: nat): Option<seq<u64>>
    decreases fuel
  {
    if fuel == 0 || b !in f.blocks then None
    else
      var s' := Exec(f.blocks[b].body, s);
      if f.blocks[b].end.Return? then Some(s'.mem)
      else RunBlocks(f, Next(f.blocks[b].end, s'), s', fuel - 1)
  }

  function CallFunc(f: Func, regs: seq<u64>, fuel: nat): Option<seq<u64>> {
    RunBlocks(f, f.entry, State(map[], regs), fuel)
  }

  function Targets(t: Terminator): set<nat> {
    match t
    case Jump(target) => {target}
    case BrIfZero(_, thn, els) => {thn, els}
    case Return => {}
  }

  /** The argument-count rule of the IR verifier: jumps pass no arguments, so they need existing blocks without parameters. */
  predicate ArgumentsMatch(f: Func) {
    forall b, t :: b in f.blocks && t in Targets(f.blocks[b].end) ==> t in f.blocks && f.blocks[t].params == 0
  }
}

module Jit {
  import opened Words
  import opened Inst
  import opened Ordered
  import opened BlockGraph

  datatype JitError =
    | UnsupportedInst(pc: nat)
    | BadTarget(pc: nat, target: int, len: nat)
    | NotAtEntry
    | Compile

  function CheckedTarget(pc: nat, offset: isize, len: nat): (r: Result<nat, JitError>)
    ensures 0 <= pc + offset <= len ==> r == Ok(pc + offset)
    ensures !(0 <= pc + offset <= len) ==> r == Err(BadTarget(pc, pc + offset, len))
  {
    var target := pc + offset;
    if target < 0 || target > len then Err(BadTarget(pc, target, len)) else Ok(target)
  }

  /** What can be compiled: register-to-register instructions, `halt`, and branches that stay in 0..=len. */
  predicate Compiles(i: Inst, pc: nat, len: nat) {
    || i.LoadImm? || i.Mov? || i.Add? || i.Sub? || i.Mul? || i.Halt?
    || (i.Jz? && 0 <= pc + i.off <= len)
    || (i.Jump? && 0 <= pc + i.offset <= len)
  }

  ghost predicate Supported(p: Program) {
    forall pc :: 0 <= pc < |p| ==> Compiles(p[pc], pc, |p|)
  }

  /** Why the instruction at `pc` is refused. */
  function Refusal(p: Program, pc: nat): JitError
    requires pc < |p|
  {
    match p[pc]
    case Jz(_, off) => BadTarget(pc, pc + off, |p|)
    case Jump(off) => BadTarget(pc, pc + off, |p|)
    case _ => UnsupportedInst(pc)
  }

  method ValidateProgram(p: Program) returns (r: Result<(), JitError>)
    ensures r.Ok? <==> Supported(p)
    ensures r.Err? ==> exists pc :: 0 <= pc < |p| && !Compiles(p[pc], pc, |p|) && r.error == Refusal(p, pc)
                                    && forall k :: 0 <= k < pc ==> Compiles(p[k], k, |p|)
  {
    var pc := 0;
    while pc < |p|
      invariant 0 <= pc <= |p|
      invariant forall k :: 0 <= k < pc ==> Compiles(p[k], k, |p|)
    {
      match p[pc] {
        case LoadImm(_, _) | Mov(_, _) | Add(_, _, _) | Sub(_, _, _) | Mul(_, _, _) | Halt =>
        case Jz(_, off) =>
          var t := CheckedTarget(pc, off, |p|);
          if t.Err? {
            assert !Compiles(p[pc], pc, |p|);
            return Err(t.error);
          }
        case Jump(off) =>
          var t := CheckedTarget(pc, off, |p|);
          if t.Err? {
            assert !Compiles(p[pc], pc, |p|);
            return Err(t.error);
          }
        case _ =>
          assert !Compiles(p[pc], pc, |p|);
          return Err(UnsupportedInst(pc));
      }
      pc := pc + 1;
    }
    r := Ok(());
  }

  /** In full: every instruction is one of the six kinds, or a branch whose target lies in 0..=len. */
  lemma SupportedMeans(p: Program)
    ensures Supported(p) <==>
            forall pc :: 0 <= pc < |p| ==>
              match p[pc]
              case LoadImm(_, _) => true
              case Mov(_, _) => true
              case Add(_, _, _) => true
              case Sub(_, _, _) => true
              case Mul(_, _, _) => true
              case Halt => true
              case Jz(_, off) => 0 <= pc + off <= |p|
              case Jump(off) => 0 <= pc + off <= |p|
              case _ => false
  {
  }

  // ----- leaders and touched registers -----

  predicate IsControl(i: Inst) { i.Jz? || i.Jump? || i.Halt? }

  function BranchTarget(p: Program, pc: nat): Option<nat>
    requires pc < |p|
  {
    var t := match p[pc]
      case Jz(_, off) => CheckedTarget(pc, off, |p|)
      case Jump(off) => CheckedTarget(pc, off, |p|)
      case _ => Err(UnsupportedInst(pc));
    match t case Ok(target) => Some(target) case Err(_) => None
  }

  /** `l` starts a block because of the instruction at `pc`. */
  ghost predicate LeaderFrom(p: Program, pc: nat, l: nat) {
    pc < |p| && ((IsControl(p[pc]) && l == pc + 1) || BranchTarget(p, pc) == Some(l))
  }

  ghost predicate IsLeader(p: Program, l: nat) {
    l == 0 || l == |p| || exists pc :: LeaderFrom(p, pc, l)
  }

  /** The registers an instruction names. */
  function Names(i: Inst): set<nat> {
    match i
    case LoadImm(dst, _) => {dst}
    case Mov(dst, src) => {dst, src}
    case Add(dst, a, b) => {dst, a, b}
    case Sub(dst, a, b) => {dst, a, b}
    case Mul(dst, a, b) => {dst, a, b}
    case Jz(cond, _) => {cond}
    case _ => {}
  }

  function Touched(p: Program, n: nat): (t: set<nat>)
    requires n <= |p|
    ensures forall r :: r in t ==> r < 256
    ensures forall pc :: 0 <= pc < n ==> Names(p[pc]) <= t
  {
    if n == 0 then {} else Touched(p, n - 1) + Names(p[n - 1])
  }

  ghost predicate LeaderList(p: Program, leaders: seq<nat>) {
    && StrictlyAscending(leaders)
    && (forall l :: l in leaders <==> IsLeader(p, l))
    && (forall l :: l in leaders ==> l <= |p|)
  }

  /** The check of the branch at `pc`, if it is one. */
  function TargetCheck(p: Program, pc: nat): Result<(), JitError>
    requires pc < |p|
  {
    match p[pc]
    case Jz(_, off) => TargetOk(CheckedTarget(pc, off, |p|))
    case Jump(off) => TargetOk(CheckedTarget(pc, off, |p|))
    case _ => Ok(())
  }

  function TargetOk(r: Result<nat, JitError>): Result<(), JitError> {
    match r case Ok(_) => Ok(()) case Err(e) => Err(e)
  }

  method BasicBlockLeaders(p: Program) returns (r: Result<seq<nat>, JitError>)
    ensures r.Ok? <==> forall pc :: 0 <= pc < |p| ==> TargetCheck(p, pc).Ok?
    ensures r.Ok? ==> LeaderList(p, r.value)
    ensures r.Err? ==> exists pc :: 0 <= pc < |p| && TargetCheck(p, pc) == Err(r.error)
                                    && forall k :: 0 <= k < pc ==> TargetCheck(p, k).Ok?
  {
    var found: set<nat> := {0, |p|};
    var pc := 0;
    while pc < |p|
      invariant 0 <= pc <= |p|
      invariant forall l: nat :: l in found <==> l == 0 || l == |p| || exists k: nat :: k < pc && LeaderFrom(p, k, l)
      invariant forall l :: l in found ==> l <= |p|
      invariant forall k :: 0 <= k < pc ==> TargetCheck(p, k).Ok?
    {
      ghost var before := found;
      match p[pc] {
        case Jz(_, off) =>
          var t := CheckedTarget(pc, off, |p|);
          if t.Err? {
            assert TargetCheck(p, pc) == Err(t.error);
            return Err(t.error);
          }
          found := found + {t.value} + {pc + 1};
        case Jump(off) =>
          var t := CheckedTarget(pc, off, |p|);
          if t.Err? {
            assert TargetCheck(p, pc) == Err(t.error);
            return Err(t.error);
          }
          found := found + {t.value} + {pc + 1};
        case Halt =>
          found := found + {pc + 1};
        case _ =>
      }
      assert forall l: nat :: l in found <==> l in before || LeaderFrom(p, pc, l);
      pc := pc + 1;
    }
    assert forall l: nat :: IsLeader(p, l) <==> l in found;
    r := Ok(Sorted(found));
  }

  method TouchedRegisters(p: Program) returns (regs: seq<nat>)
    ensures regs == Sorted(Touched(p, |p|))
  {
    hide Names, Sorted;
    var found: set<nat> := {};
    var pc := 0;
    while pc < |p|
      invariant 0 <= pc <= |p| && found == Touched(p, pc)
    {
      found := found + Names(p[pc]);
      pc := pc + 1;
    }
    regs := Sorted(found);
  }

  // ----- the block graph of a program -----

  /** Registers get variables 1, 2, .. in ascending order. */
  ghost function Order(p: Program): (t: seq<nat>)
    ensures StrictlyAscending(t) && forall r :: r in t <==> r in Touched(p, |p|)
  {
    Sorted(Touched(p, |p|))
  }

  ghost function VarOf(t: seq<nat>, reg: nat): (v: nat)
    requires reg in t
    ensures 1 <= v <= |t| && t[v - 1] == reg
  {
    var i :| 0 <= i < |t| && t[i] == reg;
    i + 1
  }

  ghost function Use(t: seq<nat>, reg: nat): Expr
    requires reg in t
  {
    UseVar(VarOf(t, reg))
  }

  /** The statement for a register-to-register instruction. */
  ghost function Translate(i: Inst, t: seq<nat>): Stmt
    requires Names(i) != {} && !i.Jz? && forall r :: r in Names(i) ==> r in t
  {
    DefVar(VarOf(t, i.dst),
           match i
           case LoadImm(_, val) => IConst(val)
           case Mov(_, src) => Use(t, src)
           case Add(_, a, b) => Binary(IAdd, Use(t, a), Use(t, b))
           case Sub(_, a, b) => Binary(ISub, Use(t, a), Use(t, b))
           case Mul(_, a, b) => Binary(IMul, Use(t, a), Use(t, b)))
  }

  lemma TouchedCovers(p: Program, pc: nat)
    requires pc < |p|
    ensures forall r :: r in Names(p[pc]) ==> r in Order(p)
  {
  }

  /** The code from `pc` up to `end`, or up to the first control instruction. */
  ghost function Code(p: Program, pc: nat, end: nat): (seq<Stmt>, Terminator)
    requires Supported(p) && pc <= end <= |p|
    decreases end - pc
  {
    if pc == end then ([], BlockGraph.Jump(end))
    else
      TouchedCovers(p, pc);
      assert Compiles(p[pc], pc, |p|);
      var i := p[pc];
      if i.Jz? then ([], BrIfZero(VarOf(Order(p), i.cond), CheckedTarget(pc, i.off, |p|).value, pc + 1))
      else if i.Jump? then ([], BlockGraph.Jump(CheckedTarget(pc, i.offset, |p|).value))
      else if i.Halt? then ([], BlockGraph.Jump(|p|))
      else
        var rest := Code(p, pc + 1, end);
        ([Translate(i, Order(p))] + rest.0, rest.1)
  }

  ghost function Prologue(t: seq<nat>): seq<Stmt>
    requires forall r :: r in t ==> r < 256
  {
    seq(|t|, i requires 0 <= i < |t| => assert t[i] in t; DefVar(i + 1, LoadReg(t[i])))
  }

  ghost function Epilogue(t: seq<nat>): seq<Stmt>
    requires forall r :: r in t ==> r < 256
  {
    seq(|t|, i requires 0 <= i < |t| => assert t[i] in t; StoreReg(t[i], i + 1))
  }

  /** The block boundary after `pc`. */
  ghost function NextLeader(p: Program, pc: nat): (l: nat)
    requires pc < |p|
    ensures pc < l <= |p| && IsLeader(p, l) && forall k :: pc < k < l ==> !IsLeader(p, k)
    decreases |p| - pc
  {
    if IsLeader(p, pc + 1) then pc + 1 else NextLeader(p, pc + 1)
  }

  ghost function BlockAt(p: Program, l: nat): Block
    requires Supported(p) && l <= |p|
  {
    var params := if l == 0 then 1 else 0;
    var prologue := if l == 0 then Prologue(Order(p)) else [];
    if l == |p| then Block(params, prologue + Epilogue(Order(p)), Return)
    else
      var code := Code(p, l, NextLeader(p, l));
      Block(params, prologue + code.0, code.1)
  }

  /** `f` is the graph of `p`: one block per leader. */
  ghost predicate IsGraphOf(p: Program, f: Func)
    requires Supported(p)
  {
    && f.entry == 0
    && (forall l :: l in f.blocks <==> IsLeader(p, l))
    && (forall l :: l in f.blocks ==> l <= |p| && f.blocks[l] == BlockAt(p, l))
  }

  // ----- build_function -----

  method EmitPrologue(touched: seq<nat>) returns (prologue: seq<Stmt>, regVars: map<nat, nat>)
    requires StrictlyAscending(touched) && forall r :: r in touched ==> r < 256
    ensures prologue == Prologue(touched)
    ensures forall r :: r in touched ==> r in regVars && regVars[r] == VarOf(touched, r)
  {
    prologue, regVars := [], map[];
    var i := 0;
    while i < |touched|
      invariant 0 <= i <= |touched|
      invariant prologue == Prologue(touched)[..i]
      invariant forall r :: r in touched[..i] ==> r in regVars && regVars[r] == VarOf(touched, r)
    {
      assert touched[i] in touched;
      prologue := prologue + [DefVar(i + 1, LoadReg(touched[i]))];
      regVars := regVars[touched[i] := i + 1];
      i := i + 1;
    }
  }

  /** The emitted statement for a register-to-register instruction; every variable lookup is defined. */
  method EmitStmt(i: Inst, regVars: map<nat, nat>, ghost t: seq<nat>) returns (c: Stmt)
    requires Names(i) != {} && !i.Jz? && forall r :: r in Names(i) ==> r in t
    requires forall r :: r in t ==> r in regVars && regVars[r] == VarOf(t, r)
    ensures c == Translate(i, t)
  {
    assert i.dst in Names(i);
    match i {
      case LoadImm(dst, val) =>
        c := DefVar(regVars[dst], IConst(val));
      case Mov(dst, src) =>
        assert src in Names(i);
        c := DefVar(regVars[dst], UseVar(regVars[src]));
      case Add(dst, a, b) =>
        assert a in Names(i) && b in Names(i);
        c := DefVar(regVars[dst], Binary(IAdd, UseVar(regVars[a]), UseVar(regVars[b])));
      case Sub(dst, a, b) =>
        assert a in Names(i) && b in Names(i);
        c := DefVar(regVars[dst], Binary(ISub, UseVar(regVars[a]), UseVar(regVars[b])));
      case Mul(dst, a, b) =>
        assert a in Names(i) && b in Names(i);
        c := DefVar(regVars[dst], Binary(IMul, UseVar(regVars[a]), UseVar(regVars[b])));
    }
  }

  /** What a control instruction names is there: its condition's variable, its targets' blocks. */
  lemma ControlLeaders(p: Program, pc: nat)
    requires Supported(p) && pc < |p| && IsControl(p[pc])
    ensures IsLeader(p, pc + 1) && IsLeader(p, |p|)
    ensures p[pc].Jz? ==> p[pc].cond in Order(p)
                          && CheckedTarget(pc, p[pc].off, |p|).Ok? && IsLeader(p, CheckedTarget(pc, p[pc].off, |p|).value)
    ensures p[pc].Jump? ==> CheckedTarget(pc, p[pc].offset, |p|).Ok? && IsLeader(p, CheckedTarget(pc, p[pc].offset, |p|).value)
  {
    hide Order;
    TouchedCovers(p, pc);
    SupportedAt(p, pc);
    assert LeaderFrom(p, pc, pc + 1);
    match p[pc] {
      case Jz(cond, off) =>
        assert cond in Names(p[pc]);
        assert LeaderFrom(p, pc, CheckedTarget(pc, off, |p|).value);
      case Jump(off) => assert LeaderFrom(p, pc, CheckedTarget(pc, off, |p|).value);
      case Halt =>
    }
  }

  /** A branch; every block it names has been created. */
  method EmitControl(p: Program, pc: nat, end: nat, blocks: map<nat, nat>, regVars: map<nat, nat>) returns (term: Terminator)
    requires Supported(p) && pc < end <= |p| && IsControl(p[pc])
    requires forall l :: IsLeader(p, l) ==> l in blocks && blocks[l] == l
    requires forall r :: r in Order(p) ==> r in regVars && regVars[r] == VarOf(Order(p), r)
    ensures Code(p, pc, end) == ([], term)
  {
    hide IsLeader, LeaderFrom, Supported, Order, VarOf, Compiles, CheckedTarget;
    ControlLeaders(p, pc);
    match p[pc] {
      case Jz(cond, off) =>
        var target := CheckedTarget(pc, off, |p|).value;
        term := BrIfZero(regVars[cond], blocks[target], blocks[pc + 1]);
      case Jump(off) =>
        var target := CheckedTarget(pc, off, |p|).value;
        term := BlockGraph.Jump(blocks[target]);
      case Halt =>
        term := BlockGraph.Jump(blocks[|p|]);
    }
  }

  /** Emit one block; `blocks` maps a leader to its block and is looked up for every branch. */
  method EmitCode(p: Program, start: nat, end: nat, blocks: map<nat, nat>, regVars: map<nat, nat>)
    returns (body: seq<Stmt>, term: Terminator)
    requires Supported(p) && start < end <= |p|
    requires forall l :: IsLeader(p, l) ==> l in blocks && blocks[l] == l
    requires end in blocks && blocks[end] == end
    requires forall r :: r in Order(p) ==> r in regVars && regVars[r] == VarOf(Order(p), r)
    ensures (body, term) == Code(p, start, end)
  {
    hide Compiles, IsLeader, LeaderFrom, VarOf, Translate, CheckedTarget;
    body := [];
    var pc := start;
    assert [] + Code(p, start, end).0 == Code(p, start, end).0;
    while pc < end
      invariant start <= pc <= end
      invariant Code(p, start, end) == (body + Code(p, pc, end).0, Code(p, pc, end).1)
    {
      TouchedCovers(p, pc);
      SupportedAt(p, pc);
      if IsControl(p[pc]) {
        term := EmitControl(p, pc, end, blocks, regVars);
        assert body + [] == body;
        return body, term;
      }
      var c := EmitStmt(p[pc], regVars, Order(p));
      assert body + ([c] + Code(p, pc + 1, end).0) == body + [c] + Code(p, pc + 1, end).0;
      body := body + [c];
      pc := pc + 1;
    }
    assert body + [] == body;
    term := BlockGraph.Jump(blocks[end]);
  }

  lemma SupportedAt(p: Program, pc: nat)
    requires Supported(p) && pc < |p|
    ensures Compiles(p[pc], pc, |p|) && (IsControl(p[pc]) || (Names(p[pc]) != {} && !p[pc].Jz?))
  {
  }

  method EmitEpilogue(touched: seq<nat>, regVars: map<nat, nat>) returns (epilogue: seq<Stmt>)
    requires StrictlyAscending(touched) && forall r :: r in touched ==> r < 256
    requires forall r :: r in touched ==> r in regVars && regVars[r] == VarOf(touched, r)
    ensures epilogue == Epilogue(touched)
  {
    epilogue := [];
    var i := 0;
    while i < |touched|
      invariant 0 <= i <= |touched|
      invariant epilogue == Epilogue(touched)[..i]
    {
      assert touched[i] in touched;
      epilogue := epilogue + [StoreReg(touched[i], regVars[touched[i]])];
      i := i + 1;
    }
  }

  method EmitBlock(p: Program, start: nat, end: nat, blocks: map<nat, nat>, regVars: map<nat, nat>, prologue: seq<Stmt>)
    returns (b: Block)
    requires Supported(p) && start < |p| && end == NextLeader(p, start)
    requires forall l :: IsLeader(p, l) ==> l in blocks && blocks[l] == l
    requires forall r :: r in Order(p) ==> r in regVars && regVars[r] == VarOf(Order(p), r)
    requires prologue == Prologue(Order(p))
    ensures b == BlockAt(p, start)
  {
    hide Code, Prologue, Compiles;
    var body, term := EmitCode(p, start, end, blocks, regVars);
    b := Block(if start == 0 then 1 else 0, (if start == 0 then prologue else []) + body, term);
  }

  method EmitExit(p: Program, touched: seq<nat>, regVars: map<nat, nat>, prologue: seq<Stmt>) returns (b: Block)
    requires Supported(p) && touched == Order(p)
    requires forall r :: r in touched ==> r in regVars && regVars[r] == VarOf(touched, r)
    requires prologue == Prologue(touched)
    ensures b == BlockAt(p, |p|)
  {
    hide Code, Prologue, Compiles;
    var epilogue := EmitEpilogue(touched, regVars);
    b := Block(if |p| == 0 then 1 else 0, (if |p| == 0 then prologue else []) + epilogue, Return);
  }

  method BuildFunction(p: Program) returns (f: Func)
    requires Supported(p)
    ensures IsGraphOf(p, f)
  {
    hide BlockAt, Touched, NextLeader, Prologue, Epilogue, VarOf, Supported, IsLeader, Order, Sorted, StrictlyAscending;
    BranchesChecked(p);
    var found := BasicBlockLeaders(p);
    var leaders := found.value;
    EndsAreLeaders(p);
    LastLeader(p, leaders);
    var blockOf: map<nat, nat> := map l | l in leaders :: l;
    var touched := TouchedRegisters(p);
    var prologue, regVars := EmitPrologue(touched);
    var blocks: map<nat, Block> := map[];
    var w := 0;
    while w + 1 < |leaders|
      invariant 0 <= w < |leaders|
      invariant blocks.Keys == set l | l in leaders[..w]
      invariant forall l :: l in blocks ==> l <= |p| && blocks[l] == BlockAt(p, l)
    {
      var start, end := leaders[w], leaders[w + 1];
      WindowIsNextLeader(p, leaders, w);
      var block := EmitBlock(p, start, end, blockOf, regVars, prologue);
      blocks := blocks[blockOf[start] := block];
      assert leaders[..w + 1] == leaders[..w] + [start];
      w := w + 1;
    }
    var last := EmitExit(p, touched, regVars, prologue);
    blocks := blocks[blockOf[|p|] := last];
    assert leaders == leaders[..w] + [|p|];
    f := Func(blockOf[0], blocks);
  }

  lemma BranchesChecked(p: Program)
    requires Supported(p)
    ensures forall pc :: 0 <= pc < |p| ==> TargetCheck(p, pc).Ok?
  {
    forall pc | 0 <= pc < |p| ensures TargetCheck(p, pc).Ok? {
      assert Compiles(p[pc], pc, |p|);
    }
  }

  lemma EndsAreLeaders(p: Program)
    ensures IsLeader(p, 0) && IsLeader(p, |p|)
    ensures Order(p) == Sorted(Touched(p, |p|))
    ensures forall r :: r in Order(p) ==> r < 256
  {
  }

  lemma WindowIsNextLeader(p: Program, leaders: seq<nat>, w: nat)
    requires LeaderList(p, leaders) && w + 1 < |leaders|
    ensures leaders[w] in leaders && leaders[w + 1] in leaders
    ensures leaders[w] < |p| && NextLeader(p, leaders[w]) == leaders[w + 1]
  {
    assert leaders[w] in leaders && leaders[w + 1] in leaders;
    var n := NextLeader(p, leaders[w]);
    assert n in leaders;
    var k :| 0 <= k < |leaders| && leaders[k] == n;
    assert k >= w + 1;
  }

  lemma LastLeader(p: Program, leaders: seq<nat>)
    requires LeaderList(p, leaders)
    ensures leaders != [] && leaders[|leaders| - 1] == |p|
  {
    assert IsLeader(p, |p|);
    assert |p| in leaders;
    assert leaders[|leaders| - 1] in leaders;
  }
}
