/** The Forth interpreter whose stack lives in the machine's heap and whose state lives in two virtual files (aeon-vm/src/forth.rs). */
module ForthSpec {
  import opened Words
  import Asm

  datatype ForthError =
    | StackUnderflow
    | StackOverflow
    | UnknownWord(word: string)
    | UnknownVariable(name: string)
    | BadControl(what: string)
    | VfsFailed
    | CodecFailed

  type Dictionary = map<string, seq<string>>

  datatype Frame = Frame(tokens: seq<string>, ip: nat)

  datatype LoopFrame = LoopFrame(startIp: nat, index: u64, limit: u64)

  datatype Runtime = Runtime(
    tokens: seq<string>,
    ip: nat,
    frames: seq<Frame>,
    loops: seq<LoopFrame>,
    envs: seq<map<string, u64>>,
    output: seq<u64>,
    halted: bool)

  /** The interpreter as a list machine: the cells of the stack, top last, and the runtime. */
  datatype State = State(cells: seq<u64>, rt: Runtime)

  /** A state and how the step that led to it ended; a failed step keeps what it had already done. */
  datatype Outcome = Outcome(state: State, result: Result<(), ForthError>)

  function Done(s: State): Outcome { Outcome(s, Ok(())) }

  function Failed(s: State, e: ForthError): Outcome { Outcome(s, Err(e)) }

  /** How many cells fit; -1 when the heap ends before the stack region starts. */
  type Room = x: int | x >= -1

  function Slots(cap: Room): nat { if cap < 0 then 0 else cap }

  function Push(cap: Room, s: State, v: u64): Outcome {
    if |s.cells| >= cap then Failed(s, StackOverflow) else Done(s.(cells := s.cells + [v]))
  }

  function Dropped(s: State): State
    requires s.cells != []
  {
    s.(cells := s.cells[..|s.cells| - 1])
  }

  function Top(s: State): u64
    requires s.cells != []
  {
    s.cells[|s.cells| - 1]
  }

  /** Two pops, then a push; an underflow on the second pop has already taken the first cell. */
  function Combine(cap: Room, s: State, f: (u64, u64) -> u64): Outcome {
    if s.cells == [] then Failed(s, StackUnderflow)
    else
      var one := Dropped(s);
      if one.cells == [] then Failed(one, StackUnderflow)
      else Push(cap, Dropped(one), f(Top(one), Top(s)))
  }

  function Flag(b: bool): u64 { if b then 1 else 0 }

  /** Pushes in turn; the first that finds no room ends the word. */
  function PushAll(cap: Room, s: State, vs: seq<u64>): Outcome
    decreases |vs|
  {
    if vs == [] then Done(s)
    else
      var r := Push(cap, s, vs[0]);
      if r.result.Err? then r else PushAll(cap, r.state, vs[1..])
  }

  /** The words that touch nothing but the stack. */
  predicate IsStackWord(w: string) {
    w in {"+", "-", "*", "=", "<", ">", "dup", "swap", "over", "drop", "depth", "then"}
  }

  function StackWord(cap: Room, s: State, w: string): Outcome
    requires IsStackWord(w)
  {
    if w == "+" then Combine(cap, s, (a: u64, b: u64) => WrapAdd(a, b))
    else if w == "-" then Combine(cap, s, (a: u64, b: u64) => WrapSub(a, b))
    else if w == "*" then Combine(cap, s, (a: u64, b: u64) => WrapMul(a, b))
    else if w == "=" then Combine(cap, s, (a: u64, b: u64) => Flag(a == b))
    else if w == "<" then Combine(cap, s, (a: u64, b: u64) => Flag(a < b))
    else if w == ">" then Combine(cap, s, (a: u64, b: u64) => Flag(a > b))
    else if w == "then" then Done(s)
    else if w == "depth" then if cap < 0 then Failed(s, StackUnderflow) else Push(cap, s, |s.cells| % TWO64)
    else if s.cells == [] then Failed(s, StackUnderflow)
    else
      var one, b := Dropped(s), Top(s);
      if w == "drop" then Done(one)
      else if w == "dup" then PushAll(cap, one, [b, b])
      else if one.cells == [] then Failed(one, StackUnderflow)
      else
        var two, a := Dropped(one), Top(one);
        if w == "swap" then PushAll(cap, two, [b, a]) else PushAll(cap, two, [a, b, a])
  }

  /** Just behind the matching closer; a missing one is an error with everything skipped. */
  function SkipTo(tokens: seq<string>, ip: nat, depth: nat, open: string, close: string): (r: (nat, bool))
    requires ip <= |tokens| && depth > 0
    ensures ip <= r.0 <= |tokens|
    decreases |tokens| - ip
  {
    if ip == |tokens| then (ip, false)
    else if tokens[ip] == open then SkipTo(tokens, ip + 1, depth + 1, open, close)
    else if tokens[ip] == close then
      if depth == 1 then (ip + 1, true) else SkipTo(tokens, ip + 1, depth - 1, open, close)
    else SkipTo(tokens, ip + 1, depth, open, close)
  }

  /** Openers minus closers among tokens `a` to `b`. */
  ghost function Nesting(tokens: seq<string>, a: nat, b: nat, open: string, close: string): int
    requires a <= b <= |tokens|
    decreases b - a
  {
    if a == b then 0
    else (if tokens[a] == open then 1 else if tokens[a] == close then -1 else 0) + Nesting(tokens, a + 1, b, open, close)
  }

  /** Skipping stops just behind the first closer that brings the nesting to zero, and only fails when there is none. */
  lemma {:induction false} SkipFindsCloser(tokens: seq<string>, ip: nat, depth: nat, open: string, close: string)
    requires ip <= |tokens| && depth > 0 && open != close
    ensures var (end, found) := SkipTo(tokens, ip, depth, open, close);
            && (found ==> end > ip && tokens[end - 1] == close && depth + Nesting(tokens, ip, end, open, close) == 0)
            && (!found ==> end == |tokens| && depth + Nesting(tokens, ip, end, open, close) > 0)
            && forall j :: ip <= j < end ==> depth + Nesting(tokens, ip, j, open, close) > 0
    decreases |tokens| - ip
  {
    if ip < |tokens| {
      var change := if tokens[ip] == open then 1 else if tokens[ip] == close then -1 else 0;
      if depth + change > 0 {
        SkipFindsCloser(tokens, ip + 1, depth + change, open, close);
        var end := SkipTo(tokens, ip, depth, open, close).0;
        forall j | ip <= j < end ensures depth + Nesting(tokens, ip, j, open, close) > 0 {
          if j > ip {
            assert Nesting(tokens, ip, j, open, close) == change + Nesting(tokens, ip + 1, j, open, close);
          }
        }
      } else {
        assert Nesting(tokens, ip + 1, ip + 1, open, close) == 0;
      }
    }
  }

  function Skip(s: State, open: string, close: string): Outcome
    requires s.rt.ip <= |s.rt.tokens|
  {
    var (ip, found) := SkipTo(s.rt.tokens, s.rt.ip, 1, open, close);
    var r := s.(rt := s.rt.(ip := ip));
    if found then Done(r) else Failed(r, BadControl(open))
  }

  /** The innermost environment holding `name`, or none. */
  function Holder(envs: seq<map<string, u64>>, name: string): (i: Option<nat>)
    ensures i.Some? ==> i.value < |envs| && name in envs[i.value]
    ensures i.Some? ==> forall k :: i.value < k < |envs| ==> name !in envs[k]
    ensures i.None? ==> forall k :: 0 <= k < |envs| ==> name !in envs[k]
  {
    if envs == [] then None
    else if name in envs[|envs| - 1] then Some(|envs| - 1)
    else
      var i := Holder(envs[..|envs| - 1], name);
      assert forall k :: 0 <= k < |envs| - 1 ==> envs[k] == envs[..|envs| - 1][k];
      i
  }

  function Bind(envs: seq<map<string, u64>>, name: string, v: u64): (r: seq<map<string, u64>>)
    requires envs != []
    ensures |r| == |envs|
  {
    var i := match Holder(envs, name) case Some(k) => k case None => |envs| - 1;
    var env: map<string, u64> := envs[i][name := v];
    envs[i := env]
  }

  /** `var`, `set` and `get` take the next token as the variable's name. */
  function Variable(cap: Room, s: State, w: string): Outcome
    requires w in {"var", "set", "get"} && s.rt.envs != []
  {
    if s.rt.ip >= |s.rt.tokens| then Failed(s, BadControl(w))
    else
      var name, last := s.rt.tokens[s.rt.ip], |s.rt.envs| - 1;
      var t := s.(rt := s.rt.(ip := s.rt.ip + 1));
      if w == "var" then
        if name in s.rt.envs[last] then Done(t)
        else Done(t.(rt := t.rt.(envs := s.rt.envs[last := s.rt.envs[last][name := 0]])))
      else if w == "set" then
        if t.cells == [] then Failed(t, StackUnderflow)
        else Done(Dropped(t).(rt := t.rt.(envs := Bind(t.rt.envs, name, Top(t)))))
      else
        match Holder(t.rt.envs, name)
        case None => Failed(t, UnknownVariable(name))
        case Some(i) => Push(cap, t, t.rt.envs[i][name])
  }

  predicate IsControl(w: string) { w in {".", "if", "do", "i", "loop"} }

  function Control(cap: Room, s: State, w: string): Outcome
    requires IsControl(w) && s.rt.ip <= |s.rt.tokens|
  {
    if w == "i" then
      if s.rt.loops == [] then Failed(s, BadControl(w)) else Push(cap, s, s.rt.loops[|s.rt.loops| - 1].index)
    else if w == "loop" then Loop(s)
    else if s.cells == [] then Failed(s, StackUnderflow)
    else
      var one, v := Dropped(s), Top(s);
      if w == "." then Done(one.(rt := one.rt.(output := one.rt.output + [v])))
      else if w == "if" then if v == 0 then Skip(one, "if", "then") else Done(one)
      else if one.cells == [] then Failed(one, StackUnderflow)
      else
        var two, limit := Dropped(one), Top(one);
        if v >= limit then Skip(two, "do", "loop")
        else Done(two.(rt := two.rt.(loops := two.rt.loops + [LoopFrame(two.rt.ip, v, limit)])))
  }

  function Loop(s: State): Outcome {
    if s.rt.loops == [] then Failed(s, BadControl("loop"))
    else
      var last := |s.rt.loops| - 1;
      var l := s.rt.loops[last];
      var next := WrapAdd(l.index, 1);
      if next < l.limit then Done(s.(rt := s.rt.(loops := s.rt.loops[last := l.(index := next)], ip := l.startIp)))
      else Done(s.(rt := s.rt.(loops := s.rt.loops[..last])))
  }

  /** A dictionary word is called, anything else has to be a number. */
  function Other(cap: Room, dict: Dictionary, s: State, w: string): Outcome {
    if w in dict then
      Done(s.(rt := s.rt.(frames := s.rt.frames + [Frame(s.rt.tokens, s.rt.ip)], tokens := dict[w], ip := 0,
                          envs := s.rt.envs + [map[]])))
    else
      match Asm.ParseRadix(w, 10, TWO64 - 1)
      case Some(n) => Push(cap, s, n)
      case None => Failed(s, UnknownWord(w))
  }

  /** The end of a token list: back to the caller, or halt. */
  function Return(s: State): State {
    var n := |s.rt.frames| - 1;
    if s.rt.frames == [] then s.(rt := s.rt.(halted := true))
    else
      var envs := if |s.rt.envs| > 1 then s.rt.envs[..|s.rt.envs| - 1] else s.rt.envs;
      s.(rt := s.rt.(frames := s.rt.frames[..n], tokens := s.rt.frames[n].tokens, ip := s.rt.frames[n].ip, envs := envs))
  }

  function Step(cap: Room, dict: Dictionary, s: State): Outcome
    requires s.rt.envs != []
  {
    if s.rt.ip >= |s.rt.tokens| then Done(Return(s))
    else
      var w := s.rt.tokens[s.rt.ip];
      var t := s.(rt := s.rt.(ip := s.rt.ip + 1));
      if IsStackWord(w) then StackWord(cap, t, w)
      else if w in {"var", "set", "get"} then Variable(cap, t, w)
      else if IsControl(w) then Control(cap, t, w)
      else Other(cap, dict, t, w)
  }

  // ----- what every step keeps, failing ones included -----

  /** One environment per active call, the outermost program included; the stack within its region. */
  ghost predicate InBounds(cap: Room, s: State) {
    |s.rt.envs| == |s.rt.frames| + 1 && |s.cells| <= Slots(cap)
  }

  lemma {:induction false} PushAllKeeps(cap: Room, s: State, vs: seq<u64>)
    requires |s.cells| <= Slots(cap)
    ensures |PushAll(cap, s, vs).state.cells| <= Slots(cap) && PushAll(cap, s, vs).state.rt == s.rt
    decreases |vs|
  {
    if vs != [] && |s.cells| < cap {
      PushAllKeeps(cap, Push(cap, s, vs[0]).state, vs[1..]);
    }
  }

  lemma StackWordKeeps(cap: Room, s: State, w: string)
    requires IsStackWord(w) && |s.cells| <= Slots(cap)
    ensures |StackWord(cap, s, w).state.cells| <= Slots(cap) && StackWord(cap, s, w).state.rt == s.rt
  {
    hide PushAll;
    if |s.cells| >= 1 && w == "dup" {
      PushAllKeeps(cap, Dropped(s), [Top(s), Top(s)]);
    } else if |s.cells| >= 2 && w == "swap" {
      PushAllKeeps(cap, Dropped(Dropped(s)), [Top(s), Top(Dropped(s))]);
    } else if |s.cells| >= 2 && w == "over" {
      PushAllKeeps(cap, Dropped(Dropped(s)), [Top(Dropped(s)), Top(s), Top(Dropped(s))]);
    }
  }

  lemma VariableKeeps(cap: Room, s: State, w: string)
    requires InBounds(cap, s) && w in {"var", "set", "get"}
    ensures InBounds(cap, Variable(cap, s, w).state)
  {
    hide Holder;
  }

  lemma ControlKeeps(cap: Room, s: State, w: string)
    requires InBounds(cap, s) && IsControl(w) && s.rt.ip <= |s.rt.tokens|
    ensures InBounds(cap, Control(cap, s, w).state)
  {
    hide SkipTo;
  }

  lemma OtherKeeps(cap: Room, dict: Dictionary, s: State, w: string)
    requires InBounds(cap, s)
    ensures InBounds(cap, Other(cap, dict, s, w).state)
  {
    hide Asm.ParseRadix;
  }

  lemma StepKeeps(cap: Room, dict: Dictionary, s: State)
    requires InBounds(cap, s)
    ensures InBounds(cap, Step(cap, dict, s).state)
  {
    hide StackWord, Variable, Control, Other, IsStackWord, IsControl;
    if s.rt.ip < |s.rt.tokens| {
      var w, t := s.rt.tokens[s.rt.ip], s.(rt := s.rt.(ip := s.rt.ip + 1));
      if IsStackWord(w) {
        StackWordKeeps(cap, t, w);
      } else if w in {"var", "set", "get"} {
        VariableKeeps(cap, t, w);
      } else if IsControl(w) {
        ControlKeeps(cap, t, w);
      } else {
        OtherKeeps(cap, dict, t, w);
      }
    }
  }

  // ----- runs -----

  /** `run_steps`: the runtime is kept step by step, so a failing step leaves the one before it; the cells it took are gone. */
  function Run(cap: Room, dict: Dictionary, s: State, n: nat): (State, Result<bool, ForthError>)
    requires |s.rt.envs| == |s.rt.frames| + 1 && |s.cells| <= Slots(cap)
    decreases n
  {
    if n == 0 then (s, Ok(false))
    else if s.rt.halted then (s, Ok(true))
    else
      StepKeeps(cap, dict, s);
      var o := Step(cap, dict, s);
      if o.result.Err? then (State(o.state.cells, s.rt), Err(o.result.error))
      else if o.state.rt.halted then (o.state, Ok(true))
      else Run(cap, dict, o.state, n - 1)
  }

  lemma {:induction false} RunKeeps(cap: Room, dict: Dictionary, s: State, n: nat)
    requires InBounds(cap, s)
    ensures InBounds(cap, Run(cap, dict, s, n).0)
    ensures Run(cap, dict, s, n).1 == Ok(true) ==> Run(cap, dict, s, n).0.rt.halted
    decreases n
  {
    hide Step;
    if n > 0 && !s.rt.halted {
      StepKeeps(cap, dict, s);
      var o := Step(cap, dict, s);
      if o.result.Ok? && !o.state.rt.halted {
        RunKeeps(cap, dict, o.state, n - 1);
      }
    }
  }

  /** A run may be cut anywhere: `n` steps and then `m` steps are `n + m` steps, unless the first part failed. */
  lemma {:induction false} RunsCompose(cap: Room, dict: Dictionary, s: State, n: nat, m: nat)
    requires InBounds(cap, s)
    ensures InBounds(cap, Run(cap, dict, s, n).0)
    ensures Run(cap, dict, s, n).1.Err? ==> Run(cap, dict, s, n + m) == Run(cap, dict, s, n)
    ensures Run(cap, dict, s, n).1.Ok? && m > 0 ==>
              Run(cap, dict, s, n + m) == Run(cap, dict, Run(cap, dict, s, n).0, m)
    decreases n
  {
    hide Step;
    RunKeeps(cap, dict, s, n);
    if n > 0 && !s.rt.halted {
      StepKeeps(cap, dict, s);
      var o := Step(cap, dict, s);
      if o.result.Ok? && !o.state.rt.halted {
        RunsCompose(cap, dict, o.state, n - 1, m);
      }
    }
  }
}
