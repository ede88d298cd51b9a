/** What Forth programs mean on the list machine: stack effects, and the counting loop (aeon-vm/src/forth.rs). */
module ForthWords {
  import opened Words
  import opened ForthSpec
  import Asm
  import AsmText

  // ----- stack effects -----

  /** `( a b -- a b b )` and so on: each word changes the top cells as its stack effect says and nothing below. */
  lemma StackEffects(cap: Room, rest: seq<u64>, a: u64, b: u64, rt: Runtime)
    requires |rest| + 3 <= cap
    ensures var s := State(rest + [a, b], rt);
            && StackWord(cap, s, "dup") == Done(State(rest + [a, b, b], rt))
            && StackWord(cap, s, "swap") == Done(State(rest + [b, a], rt))
            && StackWord(cap, s, "over") == Done(State(rest + [a, b, a], rt))
            && StackWord(cap, s, "drop") == Done(State(rest + [a], rt))
  {
    hide WrapAdd, WrapSub, WrapMul, Flag;
    var s := State(rest + [a, b], rt);
    assert Dropped(s).cells == rest + [a] && Dropped(Dropped(s)).cells == rest;
    Pushes(cap, State(rest + [a], rt), [b, b]);
    Pushes(cap, State(rest, rt), [b, a]);
    Pushes(cap, State(rest, rt), [a, b, a]);
    assert rest + [a] + [b, b] == rest + [a, b, b];
  }

  /** `( a b -- a op b )`: the deeper cell is the left operand; arithmetic wraps at 2^64, comparisons answer 1 or 0. */
  lemma OperatorEffects(cap: Room, rest: seq<u64>, a: u64, b: u64, rt: Runtime)
    requires |rest| < cap
    ensures var s := State(rest + [a, b], rt);
            && StackWord(cap, s, "+") == Done(State(rest + [(a + b) % TWO64], rt))
            && StackWord(cap, s, "-") == Done(State(rest + [(a - b) % TWO64], rt))
            && StackWord(cap, s, "*") == Done(State(rest + [(a * b) % TWO64], rt))
            && StackWord(cap, s, "=") == Done(State(rest + [if a == b then 1 else 0], rt))
            && StackWord(cap, s, "<") == Done(State(rest + [if a < b then 1 else 0], rt))
            && StackWord(cap, s, ">") == Done(State(rest + [if b < a then 1 else 0], rt))
  {
    hide PushAll;
    var s := State(rest + [a, b], rt);
    assert Flag(a == b) == (if a == b then 1 else 0) && Flag(a < b) == (if a < b then 1 else 0);
    assert Flag(a > b) == (if b < a then 1 else 0);
    assert Dropped(s).cells == rest + [a] && Dropped(Dropped(s)).cells == rest;
  }

  lemma {:induction false} Pushes(cap: Room, s: State, vs: seq<u64>)
    requires |s.cells| + |vs| <= cap
    ensures PushAll(cap, s, vs) == Done(State(s.cells + vs, s.rt))
    decreases |vs|
  {
    if vs == [] {
      assert s.cells + vs == s.cells;
    } else {
      Pushes(cap, Push(cap, s, vs[0]).state, vs[1..]);
      assert s.cells + [vs[0]] + vs[1..] == s.cells + vs;
    }
  }

  // ----- one word at a time -----

  /** The next token is `w`. */
  predicate Reads(s: State, w: string) { s.rt.ip < |s.rt.tokens| && s.rt.tokens[s.rt.ip] == w }

  /** The same state `n` tokens further. */
  function On(s: State, n: nat): State { s.(rt := s.rt.(ip := s.rt.ip + n)) }

  /** `end` lies just behind the closer that matches an opener just before `from`. */
  ghost predicate Closes(tokens: seq<string>, from: nat, end: nat, open: string, close: string) {
    && from < end <= |tokens| && tokens[end - 1] == close && 1 + Nesting(tokens, from, end, open, close) == 0
    && forall j :: from <= j < end ==> 1 + Nesting(tokens, from, j, open, close) > 0
  }

  /** `if` takes one cell. With any but zero it goes on at the next token. */
  lemma IfTakes(cap: Room, dict: Dictionary, s: State, rest: seq<u64>, v: u64)
    requires InBounds(cap, s) && Reads(s, "if") && s.cells == rest + [v] && v != 0
    ensures Step(cap, dict, s) == Done(On(s, 1).(cells := rest))
  {
    hide StackWord, Variable, Other, SkipTo;
    assert (rest + [v])[..|rest|] == rest;
  }

  /** With zero it goes on just behind the matching `then`, and fails exactly when there is none. */
  lemma IfSkips(cap: Room, dict: Dictionary, s: State, rest: seq<u64>)
    requires InBounds(cap, s) && Reads(s, "if") && s.cells == rest + [0]
    ensures var o := Step(cap, dict, s);
            && o.state == s.(cells := rest, rt := s.rt.(ip := o.state.rt.ip))
            && (o.result == Ok(()) ==> Closes(s.rt.tokens, s.rt.ip + 1, o.state.rt.ip, "if", "then"))
            && (o.result != Ok(()) ==> o.result == Err(BadControl("if")) && o.state.rt.ip == |s.rt.tokens|)
            && var from := s.rt.ip + 1; o.result == Ok(()) <==> exists end: nat :: Closes(s.rt.tokens, from, end, "if", "then")
  {
    hide StackWord, Variable, Other, SkipTo;
    assert (rest + [0])[..|rest|] == rest;
    var from := s.rt.ip + 1;
    SkipFindsCloser(s.rt.tokens, from, 1, "if", "then");
    var (end, found) := SkipTo(s.rt.tokens, from, 1, "if", "then");
    if found {
      assert Closes(s.rt.tokens, from, end, "if", "then");
    } else {
      forall other: nat ensures !Closes(s.rt.tokens, from, other, "if", "then") {
      }
    }
  }

  /** `.` moves the top cell to the output. */
  lemma DotPrints(cap: Room, dict: Dictionary, s: State, rest: seq<u64>, v: u64)
    requires InBounds(cap, s) && Reads(s, ".") && s.cells == rest + [v]
    ensures Step(cap, dict, s) == Done(On(s, 1).(cells := rest, rt := On(s, 1).rt.(output := s.rt.output + [v])))
  {
    hide StackWord, Variable, Other;
    assert (rest + [v])[..|rest|] == rest;
  }

  /** `depth` pushes the number of cells below it, given room; without the stack region it is an underflow. */
  lemma DepthCounts(cap: Room, dict: Dictionary, s: State)
    requires InBounds(cap, s) && Reads(s, "depth") && |s.cells| < TWO64
    ensures Step(cap, dict, s) == if cap < 0 then Failed(On(s, 1), StackUnderflow)
                                  else if |s.cells| == cap then Failed(On(s, 1), StackOverflow)
                                  else Done(On(s, 1).(cells := s.cells + [|s.cells|]))
  {
    hide Variable, Control, Other;
  }

  lemma ThenIsNothing(cap: Room, dict: Dictionary, s: State)
    requires InBounds(cap, s) && Reads(s, "then")
    ensures Step(cap, dict, s) == Done(On(s, 1))
  {
    hide Variable, Control, Other;
  }

  /** `i` pushes the index of the innermost loop; outside a loop it fails, as `loop` does. */
  lemma IndexIsPushed(cap: Room, dict: Dictionary, s: State)
    requires InBounds(cap, s) && Reads(s, "i")
    ensures Step(cap, dict, s) == if s.rt.loops == [] then Failed(On(s, 1), BadControl("i"))
                                  else if |s.cells| >= cap then Failed(On(s, 1), StackOverflow)
                                  else Done(On(s, 1).(cells := s.cells + [s.rt.loops[|s.rt.loops| - 1].index]))
  {
    hide StackWord, Variable, Other;
  }

  lemma LoopAlone(cap: Room, dict: Dictionary, s: State)
    requires InBounds(cap, s) && Reads(s, "loop") && s.rt.loops == []
    ensures Step(cap, dict, s) == Failed(On(s, 1), BadControl("loop"))
  {
    hide StackWord, Variable, Other;
  }

  predicate TakesOne(w: string) { w in {".", "if", "dup", "drop"} }

  predicate TakesTwo(w: string) { w in {"+", "-", "*", "=", "<", ">", "swap", "over", "do"} }

  /** A word that finds too few cells takes those there are and fails. */
  lemma TooFewCells(cap: Room, dict: Dictionary, s: State, w: string)
    requires InBounds(cap, s) && Reads(s, w)
    requires (TakesOne(w) && s.cells == []) || (TakesTwo(w) && |s.cells| <= 1)
    ensures Step(cap, dict, s) == Failed(On(s, 1).(cells := []), StackUnderflow)
  {
    hide Variable, Other, PushAll, SkipTo;
    assert |s.cells| == 1 ==> s.cells[..0] == [];
  }

  // ----- variables -----

  /** `var x` declares `x` in the innermost environment, as 0 unless it is there already. */
  lemma VarDeclares(cap: Room, dict: Dictionary, s: State, x: string)
    requires InBounds(cap, s) && Reads(s, "var") && Reads(On(s, 1), x)
    ensures var last := |s.rt.envs| - 1;
            Step(cap, dict, s) == Done(On(s, 2).(rt := On(s, 2).rt.(envs :=
              if x in s.rt.envs[last] then s.rt.envs else s.rt.envs[last := s.rt.envs[last][x := 0]])))
  {
    hide StackWord, Control, Other, Holder;
  }

  /** `x` is held by environment `i` and by none further in. */
  predicate HeldAt(s: State, x: string, i: nat) {
    i < |s.rt.envs| && x in s.rt.envs[i] && forall k :: i < k < |s.rt.envs| ==> x !in s.rt.envs[k]
  }

  /** `get x` pushes the value of the innermost environment that holds `x`, and fails when none does. */
  lemma GetReads(cap: Room, dict: Dictionary, s: State, x: string)
    requires InBounds(cap, s) && Reads(s, "get") && Reads(On(s, 1), x)
    ensures forall i: nat :: HeldAt(s, x, i) ==>
              Step(cap, dict, s) == if |s.cells| >= cap then Failed(On(s, 2), StackOverflow)
                                    else Done(On(s, 2).(cells := s.cells + [s.rt.envs[i][x]]))
    ensures (forall k :: 0 <= k < |s.rt.envs| ==> x !in s.rt.envs[k]) ==>
              Step(cap, dict, s) == Failed(On(s, 2), UnknownVariable(x))
  {
    hide StackWord, Control, Other;
    var held := Holder(s.rt.envs, x);
    forall i: nat | HeldAt(s, x, i) ensures held == Some(i) {
    }
  }

  function Assigned(env: map<string, u64>, x: string, v: u64): map<string, u64> { env[x := v] }

  /** `set x` takes one cell and writes it where `x` is held, in the innermost environment when it is held nowhere. */
  lemma SetWrites(cap: Room, dict: Dictionary, s: State, x: string, rest: seq<u64>, v: u64, i: nat)
    requires InBounds(cap, s) && Reads(s, "set") && Reads(On(s, 1), x) && s.cells == rest + [v]
    requires HeldAt(s, x, i) || (i == |s.rt.envs| - 1 && forall k :: 0 <= k < |s.rt.envs| ==> x !in s.rt.envs[k])
    ensures i < |s.rt.envs| &&
            Step(cap, dict, s) == Done(On(s, 2).(cells := rest, rt := On(s, 2).rt.(envs := s.rt.envs[i := Assigned(s.rt.envs[i], x, v)])))
  {
    hide StackWord, Control, Other;
    assert (rest + [v])[..|rest|] == rest;
    assert HeldAt(s, x, i) ==> Holder(s.rt.envs, x) == Some(i);
  }

  /** A variable word without a name, and `set` without a cell. */
  lemma VariableFails(cap: Room, dict: Dictionary, s: State, w: string)
    requires InBounds(cap, s) && Reads(s, w) && w in {"var", "set", "get"}
    ensures s.rt.ip + 1 == |s.rt.tokens| ==> Step(cap, dict, s) == Failed(On(s, 1), BadControl(w))
    ensures s.rt.ip + 1 < |s.rt.tokens| && w == "set" && s.cells == [] ==> Step(cap, dict, s) == Failed(On(s, 2), StackUnderflow)
  {
    hide StackWord, Control, Other, Holder;
  }

  /** `set x get x` gives the value back. */
  lemma SetThenGet(cap: Room, dict: Dictionary, s: State, x: string, rest: seq<u64>, v: u64)
    requires InBounds(cap, s) && !s.rt.halted && s.cells == rest + [v]
    requires Reads(s, "set") && Reads(On(s, 1), x) && Reads(On(s, 2), "get") && Reads(On(s, 3), x)
    ensures var (end, r) := Run(cap, dict, s, 2);
            r == Ok(false) && end.cells == s.cells && end.rt.ip == s.rt.ip + 4 && end.rt.tokens == s.rt.tokens
  {
    hide Step, Run;
    var i := match Holder(s.rt.envs, x) case Some(k) => k case None => |s.rt.envs| - 1;
    var envs := s.rt.envs[i := Assigned(s.rt.envs[i], x, v)];
    var t := On(s, 2).(cells := rest, rt := On(s, 2).rt.(envs := envs));
    SetWrites(cap, dict, s, x, rest, v, i);
    RunStep(cap, dict, s, t, 2);
    assert HeldAt(t, x, i);
    GetReads(cap, dict, t, x);
    var end := On(t, 2).(cells := rest + [v]);
    RunStep(cap, dict, t, end, 1);
    RunNothing(cap, dict, end);
  }

  lemma RunNothing(cap: Room, dict: Dictionary, s: State)
    requires InBounds(cap, s)
    ensures Run(cap, dict, s, 0) == (s, Ok(false))
  {
  }

  // ----- numbers and calls -----

  /** Words the interpreter knows by itself. */
  predicate BuiltIn(w: string) {
    w in {"+", "-", "*", "=", "<", ">", "dup", "swap", "over", "drop", "depth", ".", "var", "set", "get", "if", "then", "do", "i", "loop"}
  }

  /** A word of the dictionary is called: its body runs from the start in an empty environment of its own. */
  lemma WordIsCalled(cap: Room, dict: Dictionary, s: State, w: string)
    requires InBounds(cap, s) && Reads(s, w) && !BuiltIn(w) && w in dict
    ensures Step(cap, dict, s) == Done(s.(rt := s.rt.(frames := s.rt.frames + [Frame(s.rt.tokens, s.rt.ip + 1)],
                                                      tokens := dict[w], ip := 0, envs := s.rt.envs + [map[]])))
  {
    hide StackWord, Variable, Control;
  }

  /** Any other word has to be a number, which is pushed. */
  lemma NumberIsPushed(cap: Room, dict: Dictionary, s: State, n: u64)
    requires InBounds(cap, s) && Reads(s, AsmText.Print(n)) && AsmText.Print(n) !in dict
    ensures Step(cap, dict, s) == if |s.cells| >= cap then Failed(On(s, 1), StackOverflow)
                                  else Done(On(s, 1).(cells := s.cells + [n]))
  {
    hide StackWord, Variable, Control, AsmText.Print, Asm.ParseRadix;
    AsmText.DecimalReads(n, TWO64 - 1);
    var w := AsmText.Print(n);
    assert '0' <= w[0] <= '9';
    assert !BuiltIn(w);
  }

  /** Behind its last token a call returns and drops its environment; the outermost program halts. */
  lemma EndReturns(cap: Room, dict: Dictionary, s: State)
    requires InBounds(cap, s) && s.rt.ip >= |s.rt.tokens|
    ensures s.rt.frames == [] ==> Step(cap, dict, s) == Done(s.(rt := s.rt.(halted := true)))
    ensures s.rt.frames != [] ==>
              var n := |s.rt.frames| - 1;
              Step(cap, dict, s) == Done(s.(rt := s.rt.(frames := s.rt.frames[..n], tokens := s.rt.frames[n].tokens,
                                                        ip := s.rt.frames[n].ip, envs := s.rt.envs[..n + 1])))
  {
  }

  // ----- the counting loop -----

  /** A step that succeeds without halting is one turn of the run. */
  lemma RunStep(cap: Room, dict: Dictionary, s: State, t: State, n: nat)
    requires InBounds(cap, s) && n > 0 && !s.rt.halted && !t.rt.halted && Step(cap, dict, s) == Done(t)
    ensures InBounds(cap, t) && Run(cap, dict, s, n) == Run(cap, dict, t, n - 1)
  {
    hide Step;
    StepKeeps(cap, dict, s);
  }

  /** `do i . loop` at `at` */
  ghost predicate CountingAt(tokens: seq<string>, at: nat) {
    at + 4 <= |tokens| && tokens[at] == "do" && tokens[at + 1] == "i" && tokens[at + 2] == "." && tokens[at + 3] == "loop"
  }

  function Upto(a: u64, b: u64): (r: seq<u64>)
    ensures |r| == if a < b then b - a else 0
    ensures forall k :: 0 <= k < |r| ==> r[k] == a + k
    decreases b - a
  {
    if a >= b then [] else [a] + Upto(a + 1, b)
  }

  /** Inside the loop, about to print `k`. */
  ghost function Inside(s: State, at: nat, k: u64, limit: u64): State {
    s.(rt := s.rt.(ip := at + 1, loops := s.rt.loops + [LoopFrame(at + 1, k, limit)]))
  }

  ghost function Behind(s: State, at: nat): State { s.(rt := s.rt.(ip := at + 4)) }

  ghost function Printed(s: State, vs: seq<u64>): State { s.(rt := s.rt.(output := s.rt.output + vs)) }

  lemma NotStackWord()
    ensures !IsStackWord("do") && IsControl("do")
  {
  }

  lemma StepDo(cap: Room, dict: Dictionary, s: State, at: nat, start: u64, limit: u64)
    requires InBounds(cap, s) && CountingAt(s.rt.tokens, at)
    ensures Step(cap, dict, s.(cells := s.cells + [limit, start], rt := s.rt.(ip := at)))
            == Done(if start < limit then Inside(s, at, start, limit) else Behind(s, at))
  {
    hide StackWord, Variable, Other, SkipTo, IsStackWord;
    NotStackWord();
    var t := s.(cells := s.cells + [limit, start], rt := s.rt.(ip := at + 1));
    assert Dropped(t).cells == s.cells + [limit] && Dropped(Dropped(t)).cells == s.cells;
    if start >= limit {
      SkipCounting(s.rt.tokens, at);
    }
  }

  lemma SkipCounting(tokens: seq<string>, at: nat)
    requires CountingAt(tokens, at)
    ensures SkipTo(tokens, at + 1, 1, "do", "loop") == (at + 4, true)
  {
    assert SkipTo(tokens, at + 3, 1, "do", "loop") == (at + 4, true);
    assert SkipTo(tokens, at + 2, 1, "do", "loop") == (at + 4, true);
  }

  lemma StepIndex(cap: Room, dict: Dictionary, s: State, at: nat, k: u64, limit: u64)
    requires InBounds(cap, s) && CountingAt(s.rt.tokens, at) && |s.cells| < cap
    ensures Step(cap, dict, Inside(s, at, k, limit))
            == Done(Inside(s, at, k, limit).(cells := s.cells + [k], rt := Inside(s, at, k, limit).rt.(ip := at + 2)))
  {
    hide StackWord, Variable, Other, Loop;
  }

  lemma StepPrint(cap: Room, dict: Dictionary, s: State, at: nat, k: u64, limit: u64)
    requires InBounds(cap, s) && CountingAt(s.rt.tokens, at)
    ensures Step(cap, dict, Inside(s, at, k, limit).(cells := s.cells + [k], rt := Inside(s, at, k, limit).rt.(ip := at + 2)))
            == Done(Inside(Printed(s, [k]), at, k, limit).(rt := Inside(Printed(s, [k]), at, k, limit).rt.(ip := at + 3)))
  {
    hide StackWord, Variable, Other, Loop;
    assert (s.cells + [k])[..|s.cells|] == s.cells;
  }

  lemma StepLoop(cap: Room, dict: Dictionary, s: State, at: nat, k: u64, limit: u64)
    requires InBounds(cap, s) && CountingAt(s.rt.tokens, at) && k < limit
    ensures Step(cap, dict, Inside(s, at, k, limit).(rt := Inside(s, at, k, limit).rt.(ip := at + 3)))
            == Done(if k + 1 < limit then Inside(s, at, k + 1, limit) else Behind(s, at))
  {
    hide StackWord, Variable, Other;
    var frames := s.rt.loops + [LoopFrame(at + 1, k, limit)];
    assert frames[|frames| - 1 := LoopFrame(at + 1, k + 1, limit)] == s.rt.loops + [LoopFrame(at + 1, k + 1, limit)];
    assert frames[..|frames| - 1] == s.rt.loops;
  }

  lemma {:induction false} LoopCounts(cap: Room, dict: Dictionary, s: State, at: nat, k: u64, limit: u64, more: nat)
    requires InBounds(cap, s) && CountingAt(s.rt.tokens, at) && |s.cells| < cap && k < limit && !s.rt.halted
    ensures InBounds(cap, Inside(s, at, k, limit)) && InBounds(cap, Behind(Printed(s, Upto(k, limit)), at))
    ensures Run(cap, dict, Inside(s, at, k, limit), 3 * (limit - k) + more)
            == Run(cap, dict, Behind(Printed(s, Upto(k, limit)), at), more)
    decreases limit - k
  {
    hide Step, Run;
    var n := 3 * (limit - k) + more;
    var s1 := Inside(s, at, k, limit);
    var s2 := s1.(cells := s.cells + [k], rt := s1.rt.(ip := at + 2));
    var p := Printed(s, [k]);
    var s3 := Inside(p, at, k, limit).(rt := Inside(p, at, k, limit).rt.(ip := at + 3));
    StepIndex(cap, dict, s, at, k, limit);
    RunStep(cap, dict, s1, s2, n);
    StepPrint(cap, dict, s, at, k, limit);
    RunStep(cap, dict, s2, s3, n - 1);
    StepLoop(cap, dict, p, at, k, limit);
    if k + 1 < limit {
      RunStep(cap, dict, s3, Inside(p, at, k + 1, limit), n - 2);
      LoopCounts(cap, dict, p, at, k + 1, limit, more);
      assert s.rt.output + [k] + Upto(k + 1, limit) == s.rt.output + Upto(k, limit);
    } else {
      RunStep(cap, dict, s3, Behind(p, at), n - 2);
      assert Upto(k, limit) == [k];
    }
  }

  /** `limit start do i . loop` prints start, start + 1, .. up to but not including limit, for all 64-bit bounds, takes its two
      operands off the stack, leaves the loop stack as it was and goes on behind the loop. */
  lemma CountingLoop(cap: Room, dict: Dictionary, s: State, at: nat, start: u64, limit: u64, more: nat)
    requires InBounds(cap, s) && CountingAt(s.rt.tokens, at) && |s.cells| + 2 <= cap && !s.rt.halted
    ensures var entry := s.(cells := s.cells + [limit, start], rt := s.rt.(ip := at));
            var end := Behind(Printed(s, Upto(start, limit)), at);
            && InBounds(cap, entry) && InBounds(cap, end)
            && Run(cap, dict, entry, 1 + 3 * |Upto(start, limit)| + more) == Run(cap, dict, end, more)
  {
    hide Step, Run;
    var entry := s.(cells := s.cells + [limit, start], rt := s.rt.(ip := at));
    StepDo(cap, dict, s, at, start, limit);
    var n := 1 + 3 * |Upto(start, limit)| + more;
    if start < limit {
      RunStep(cap, dict, entry, Inside(s, at, start, limit), n);
      LoopCounts(cap, dict, s, at, start, limit, more);
    } else {
      RunStep(cap, dict, entry, Behind(s, at), n);
      assert s.rt.output + [] == s.rt.output;
    }
  }
}
