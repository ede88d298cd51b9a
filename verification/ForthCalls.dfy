/** What a call of a dictionary word does as a whole: it comes back behind the call, and what it may change (aeon-vm/src/forth.rs). */
module ForthCalls {
  import opened Words
  import opened ForthSpec
  import opened ForthWords
  import Asm

  type Env = map<string, u64>

  /** The same variables are declared. */
  ghost predicate SameNames(a: seq<Env>, b: seq<Env>) {
    |a| == |b| && forall i :: 0 <= i < |a| ==> a[i].Keys == b[i].Keys
  }

  predicate NoSet(tokens: seq<string>) { "set" !in tokens }

  predicate NeverSets(dict: Dictionary) { forall w :: w in dict ==> NoSet(dict[w]) }

  /** The environments of the callers, given as `callers`, are below those in use; without `set` they are as they were. */
  ghost predicate Keeps(callers: seq<Env>, envs: seq<Env>, quiet: bool) {
    && |callers| <= |envs| && SameNames(callers, envs[..|callers|])
    && (quiet ==> callers == envs[..|callers|])
  }

  /** A call is active: its frame is still there. If `quiet`, no token that can still run above it is `set`. */
  ghost predicate Active(s: State, below: seq<Frame>, callers: seq<Env>, quiet: bool) {
    && below != [] && below <= s.rt.frames && |callers| == |below| < |s.rt.envs| && |s.rt.envs| == |s.rt.frames| + 1
    && Keeps(callers, s.rt.envs, quiet)
    && (quiet ==> NoSet(s.rt.tokens) && forall k :: |below| <= k < |s.rt.frames| ==> NoSet(s.rt.frames[k].tokens))
  }

  /** The call has returned: control is behind it, and the callers' environments are in use again. */
  ghost predicate Returned(s: State, below: seq<Frame>, callers: seq<Env>, quiet: bool)
    requires below != []
  {
    var n := |below| - 1;
    && s.rt.frames == below[..n] && s.rt.tokens == below[n].tokens && s.rt.ip == below[n].ip
    && |s.rt.envs| == |callers| && Keeps(callers, s.rt.envs, quiet)
  }

  lemma VariableBelow(cap: Room, s: State, w: string, below: seq<Frame>, callers: seq<Env>, quiet: bool)
    requires w in {"var", "set", "get"} && Active(s, below, callers, quiet) && (quiet ==> w != "set")
    ensures var t := Variable(cap, s, w).state;
            t.rt.frames == s.rt.frames && t.rt.tokens == s.rt.tokens && |t.rt.envs| == |s.rt.envs| && Keeps(callers, t.rt.envs, quiet)
  {
  }

  lemma ControlAside(cap: Room, s: State, w: string)
    requires IsControl(w) && s.rt.ip <= |s.rt.tokens|
    ensures var t := Control(cap, s, w).state;
            t.rt.frames == s.rt.frames && t.rt.tokens == s.rt.tokens && t.rt.envs == s.rt.envs
  {
    hide SkipTo;
  }

  lemma OtherBelow(cap: Room, dict: Dictionary, s: State, w: string, below: seq<Frame>, callers: seq<Env>, quiet: bool)
    requires Active(s, below, callers, quiet) && (quiet ==> NeverSets(dict))
    ensures Active(Other(cap, dict, s, w).state, below, callers, quiet)
  {
    hide Asm.ParseRadix, NoSet;
    if w in dict {
      assert (s.rt.envs + [map[]])[..|callers|] == s.rt.envs[..|callers|];
    }
  }

  lemma ReturnBelow(s: State, below: seq<Frame>, callers: seq<Env>, quiet: bool)
    requires Active(s, below, callers, quiet)
    ensures if |s.rt.frames| > |below| then Active(Return(s), below, callers, quiet) else Returned(Return(s), below, callers, quiet)
  {
    hide NoSet, SameNames;
    var n := |s.rt.frames| - 1;
    assert s.rt.envs[..n + 1][..|callers|] == s.rt.envs[..|callers|];
  }

  /** One step inside a call leaves it active, or returns from it. */
  lemma StepInside(cap: Room, dict: Dictionary, s: State, below: seq<Frame>, callers: seq<Env>, quiet: bool)
    requires InBounds(cap, s) && Active(s, below, callers, quiet) && (quiet ==> NeverSets(dict))
    ensures var t := Step(cap, dict, s).state;
            Active(t, below, callers, quiet) || (Returned(t, below, callers, quiet) && s.rt.frames == below)
  {
    hide StackWord, Variable, Control, Other, IsStackWord, IsControl, Return, Keeps;
    if s.rt.ip >= |s.rt.tokens| {
      ReturnBelow(s, below, callers, quiet);
    } else {
      var w, t := s.rt.tokens[s.rt.ip], s.(rt := s.rt.(ip := s.rt.ip + 1));
      assert w in s.rt.tokens;
      if IsStackWord(w) {
        StackWordKeeps(cap, t, w);
      } else if w in {"var", "set", "get"} {
        VariableBelow(cap, t, w, below, callers, quiet);
      } else if IsControl(w) {
        ControlAside(cap, t, w);
      } else {
        OtherBelow(cap, dict, t, w, below, callers, quiet);
      }
    }
  }

  /** The run has neither failed nor halted after `k` steps. */
  ghost predicate Going(cap: Room, dict: Dictionary, s: State, k: nat)
    requires InBounds(cap, s)
  {
    Run(cap, dict, s, k).1 == Ok(false)
  }

  /** The call that `s` is about to make is active for `n` steps and over after one more. */
  ghost predicate ReturnsAfter(cap: Room, dict: Dictionary, s: State, n: nat)
    requires InBounds(cap, s)
  {
    && (forall k: nat :: 1 <= k <= n ==> Going(cap, dict, s, k) && |Run(cap, dict, s, k).0.rt.frames| > |s.rt.frames|)
    && Going(cap, dict, s, n + 1) && |Run(cap, dict, s, n + 1).0.rt.frames| <= |s.rt.frames|
  }

  /** One more step of a run that goes on. */
  lemma NextStep(cap: Room, dict: Dictionary, s: State, k: nat)
    requires InBounds(cap, s) && Going(cap, dict, s, k) && Going(cap, dict, s, k + 1)
    ensures InBounds(cap, Run(cap, dict, s, k).0)
    ensures Step(cap, dict, Run(cap, dict, s, k).0) == Done(Run(cap, dict, s, k + 1).0)
  {
    hide Step;
    RunsCompose(cap, dict, s, k, 1);
    var t := Run(cap, dict, s, k).0;
    StepKeeps(cap, dict, t);
    var o := Step(cap, dict, t);
    assert Run(cap, dict, t, 1) == Run(cap, dict, s, k + 1);
    assert !t.rt.halted && o.result.Ok? && !o.state.rt.halted;
    RunNothing(cap, dict, o.state);
    assert o.result.value == ();
  }

  lemma {:induction false} StaysActive(cap: Room, dict: Dictionary, s: State, below: seq<Frame>, callers: seq<Env>, quiet: bool, n: nat, k: nat)
    requires InBounds(cap, s) && 1 <= k <= n && ReturnsAfter(cap, dict, s, n) && (quiet ==> NeverSets(dict))
    requires Active(Run(cap, dict, s, 1).0, below, callers, quiet) && |below| == |s.rt.frames| + 1
    ensures Active(Run(cap, dict, s, k).0, below, callers, quiet)
    decreases k
  {
    hide Step, Run, Active, Keeps;
    if k > 1 {
      StaysActive(cap, dict, s, below, callers, quiet, n, k - 1);
      assert Going(cap, dict, s, k - 1) && Going(cap, dict, s, k);
      NextStep(cap, dict, s, k - 1);
      StepInside(cap, dict, Run(cap, dict, s, k - 1).0, below, callers, quiet);
    }
  }

  /** A dictionary word runs its body in an empty environment of its own. However many steps and inner calls that takes, when it
      is over control is behind the call, the callers' frames are as before, and so are their environments: the same variables,
      and, if no word of the dictionary uses `set`, with the same values. */
  lemma WordReturns(cap: Room, dict: Dictionary, s: State, w: string, n: nat)
    requires InBounds(cap, s) && Reads(s, w) && !BuiltIn(w) && w in dict && ReturnsAfter(cap, dict, s, n)
    ensures var end := Run(cap, dict, s, n + 1).0;
            && end.rt.tokens == s.rt.tokens && end.rt.ip == s.rt.ip + 1 && end.rt.frames == s.rt.frames
            && SameNames(s.rt.envs, end.rt.envs)
            && (NeverSets(dict) ==> end.rt.envs == s.rt.envs)
  {
    hide Step, Run, Keeps, Active;
    var quiet := NeverSets(dict);
    var below := s.rt.frames + [Frame(s.rt.tokens, s.rt.ip + 1)];
    WordIsCalled(cap, dict, s, w);
    RunStarts(cap, dict, s);
    assert Going(cap, dict, s, 1);
    NextStep(cap, dict, s, 0);
    if n > 0 {
      var first := Run(cap, dict, s, 1).0;
      CallIsActive(dict, s, first, w, below, quiet);
      StaysActive(cap, dict, s, below, s.rt.envs, quiet, n, n);
      assert Going(cap, dict, s, n);
      NextStep(cap, dict, s, n);
      var last := Run(cap, dict, s, n).0;
      StepInside(cap, dict, last, below, s.rt.envs, quiet);
      NotActive(Run(cap, dict, s, n + 1).0, below, s.rt.envs, quiet);
      ReturnedMeans(Run(cap, dict, s, n + 1).0, s, below, quiet);
    }
  }

  lemma RunStarts(cap: Room, dict: Dictionary, s: State)
    requires InBounds(cap, s)
    ensures Run(cap, dict, s, 0) == (s, Ok(false)) && Going(cap, dict, s, 0)
  {
  }

  lemma CallIsActive(dict: Dictionary, s: State, t: State, w: string, below: seq<Frame>, quiet: bool)
    requires w in dict && |s.rt.envs| == |s.rt.frames| + 1 && (quiet ==> NeverSets(dict))
    requires below == s.rt.frames + [Frame(s.rt.tokens, s.rt.ip + 1)]
    requires t == s.(rt := s.rt.(frames := below, tokens := dict[w], ip := 0, envs := s.rt.envs + [map[]]))
    ensures Active(t, below, s.rt.envs, quiet)
  {
    assert t.rt.envs[..|s.rt.envs|] == s.rt.envs;
  }

  lemma NotActive(t: State, below: seq<Frame>, callers: seq<Env>, quiet: bool)
    ensures |t.rt.frames| < |below| ==> !Active(t, below, callers, quiet)
  {
  }

  lemma ReturnedMeans(t: State, s: State, below: seq<Frame>, quiet: bool)
    requires below == s.rt.frames + [Frame(s.rt.tokens, s.rt.ip + 1)] && Returned(t, below, s.rt.envs, quiet)
    ensures t.rt.tokens == s.rt.tokens && t.rt.ip == s.rt.ip + 1 && t.rt.frames == s.rt.frames
    ensures SameNames(s.rt.envs, t.rt.envs) && (quiet ==> t.rt.envs == s.rt.envs)
  {
    assert t.rt.envs[..|s.rt.envs|] == t.rt.envs;
  }
}
