/** Process calls as the system issues them.  Every external program
    (`ssh`, `kubectl`, `helm`) is an oracle: an operation is modelled by the
    calls it makes, in order, and by how it ends given what the oracle
    answered.  A "checked" call turns a non-zero exit status into an error
    and stops the operation there. */
module Proc {
  import opened Common
  import opened Manifests

  /** What a call gets on standard input. */
  datatype Input =
    | NoInput
    | ManifestInput(manifest: Manifest)   // a manifest, serialised as YAML
    | ValuesInput(values: Json)           // Helm values, serialised as YAML

  /** One process invocation; `captured` says whether its standard output is
      read by the caller rather than passed through to the terminal. */
  datatype Call = Call(program: string, args: seq<string>, input: Input, captured: bool)

  /** Which checked wrapper turned a non-zero exit into an error:
      `exec` and `execCheck` ("Exit status: N"), `k8sApply`
      ("kubectl apply failed with exit code N") or `helmChart`
      ("helm upgrade failed with exit code N"). */
  datatype Check = ExecCheck | ApplyCheck | HelmCheck

  datatype Error =
    | NonZeroExit(check: Check, code: int)
    | GetFailed(resource: string, name: string, stderr: string)  // "failed to get resource R/N: ..."
    | JobFailed(name: string)                                     // "job N failed"
    | BadSecretFormat          // "envSecrets must be in the format secretName.secretKey"
    | InvalidCharacter         // btoa's InvalidCharacterError
    | UndefinedAccess          // TypeError: reading a property of `undefined`

  /** How an operation ends: normally, by throwing, or (only the job poll)
      still polling when the observations given to the model run out. */
  datatype Outcome = Done | Failed(error: Error) | Polling

  /** The calls an operation made, in order, and how it ended. */
  datatype Run = Run(calls: seq<Call>, outcome: Outcome)

  /** `r1` followed by `r2`, which only happens when `r1` ended normally. */
  function Then(r1: Run, r2: Run): (r: Run)
    ensures r1.outcome != Done ==> r == r1
    ensures r1.outcome == Done ==> r.calls == r1.calls + r2.calls && r.outcome == r2.outcome
  {
    if r1.outcome == Done then Run(r1.calls + r2.calls, r2.outcome) else r1
  }

  /** A call whose exit status nobody looks at (`execOutput`, `execString`,
      and `kubectl get` before it is classified). */
  function Unchecked(call: Call): (r: Run)
    ensures r.calls == [call] && r.outcome == Done
  {
    Run([call], Done)
  }

  /** A call that throws when it exits with a non-zero `code`. */
  function Checked(call: Call, check: Check, code: int): (r: Run)
    ensures r.calls == [call]
    ensures r.outcome == Done <==> code == 0
    ensures r.outcome != Done ==> r.outcome == Failed(NonZeroExit(check, code))
  {
    Run([call], if code == 0 then Done else Failed(NonZeroExit(check, code)))
  }

  // ---------------------------------------------------------------------
  // sequences of checked calls

  /** A checked call and the wrapper that checks it. */
  datatype Step = Step(call: Call, check: Check)

  function CallsOf(steps: seq<Step>): (cs: seq<Call>)
    ensures |cs| == |steps| && forall j :: 0 <= j < |steps| ==> cs[j] == steps[j].call
  {
    seq(|steps|, j requires 0 <= j < |steps| => steps[j].call)
  }

  /** The first index from `i` on, below `n`, whose exit code is non-zero; `n` if none. */
  function FirstNonZero(exitCode: nat -> int, i: nat, n: nat): (k: nat)
    requires i <= n
    ensures i <= k <= n
    ensures forall j :: i <= j < k ==> exitCode(j) == 0
    ensures k < n ==> exitCode(k) != 0
    decreases n - i
  {
    if i == n then n else if exitCode(i) != 0 then i else FirstNonZero(exitCode, i + 1, n)
  }

  /** Running `steps[i..]` one after the other, step `j` exiting with
      `exitCode(j)`: each call happens only if all before it exited 0. */
  function RunFrom(steps: seq<Step>, exitCode: nat -> int, i: nat): (r: Run)
    requires i <= |steps|
    ensures var k := FirstNonZero(exitCode, i, |steps|);
      && r.calls == CallsOf(steps[i..if k < |steps| then k + 1 else k])
      && r.outcome == if k < |steps| then Failed(NonZeroExit(steps[k].check, exitCode(k))) else Done
    decreases |steps| - i
  {
    if i == |steps| then Run([], Done)
    else if exitCode(i) != 0 then Run([steps[i].call], Failed(NonZeroExit(steps[i].check, exitCode(i))))
    else
      var rest := RunFrom(steps, exitCode, i + 1);
      var k := FirstNonZero(exitCode, i + 1, |steps|);
      var end := if k < |steps| then k + 1 else k;
      assert CallsOf(steps[i..end]) == [steps[i].call] + CallsOf(steps[i + 1..end]);
      Run([steps[i].call] + rest.calls, rest.outcome)
  }

  function RunSteps(steps: seq<Step>, exitCode: nat -> int): Run
  {
    RunFrom(steps, exitCode, 0)
  }

  /** A sequence of checked calls ends normally exactly when every call exits
      0, and then makes all of them; otherwise it stops at the first failing
      call, which it makes, with that call's error. */
  lemma RunStepsSpec(steps: seq<Step>, exitCode: nat -> int)
    ensures RunSteps(steps, exitCode).outcome == Done <==> forall j :: 0 <= j < |steps| ==> exitCode(j) == 0
    ensures RunSteps(steps, exitCode).outcome == Done ==> RunSteps(steps, exitCode).calls == CallsOf(steps)
    ensures forall k :: 0 <= k < |steps| && exitCode(k) != 0 && (forall j :: 0 <= j < k ==> exitCode(j) == 0) ==>
      RunSteps(steps, exitCode) == Run(CallsOf(steps[..k + 1]), Failed(NonZeroExit(steps[k].check, exitCode(k))))
  {
    var n := FirstNonZero(exitCode, 0, |steps|);
    assert steps[0..] == steps;
    forall k | 0 <= k < |steps| && exitCode(k) != 0 && (forall j :: 0 <= j < k ==> exitCode(j) == 0)
      ensures k == n
    {
    }
  }

  /** Every call a sequence of steps makes is the call of one of its steps. */
  lemma RunStepsCalls(steps: seq<Step>, exitCode: nat -> int)
    ensures forall c :: c in RunSteps(steps, exitCode).calls ==> exists j :: 0 <= j < |steps| && c == steps[j].call
  {
    assert steps[0..] == steps;
    var k := FirstNonZero(exitCode, 0, |steps|);
    var end := if k < |steps| then k + 1 else k;
    forall c | c in CallsOf(steps[..end]) ensures exists j :: 0 <= j < |steps| && c == steps[j].call {
      var j :| 0 <= j < end && CallsOf(steps[..end])[j] == c;
      assert c == steps[j].call;
    }
  }

  // ---------------------------------------------------------------------
  // reading a command line back

  /** The flags of `kubectl`, `kubectl config` and `helm` that the system
      passes, each followed by its value. */
  const ValueFlags: set<string> := {
    "--context", "--kube-context", "-n", "--namespace", "-o", "-f", "--tail", "-l",
    "--values", "--server", "--certificate-authority-data", "--client-certificate-data",
    "--client-key-data", "--cluster", "--user"}

  /** A word the parser takes as a flag rather than as an argument. */
  predicate IsFlag(w: string)
  {
    |w| >= 2 && w[0] == '-'
  }

  lemma ValueFlagsAreFlags()
    ensures forall f :: f in ValueFlags ==> IsFlag(f)
  {
  }

  /** The name a flag is known by: `--namespace` is the long spelling of
      `-n`, for `kubectl` and `helm` alike. */
  function FlagName(f: string): string
  {
    if f == "--namespace" then "-n" else f
  }

  /** The value `args` give to `flag`, read the way `kubectl` and `helm`
      read their command lines: a value flag consumes the next word, and
      when a flag is given more than once the last occurrence wins. */
  function FlagValue(args: seq<string>, flag: string): Option<string>
    decreases |args|
  {
    if |args| == 0 then None
    else if args[0] in ValueFlags && |args| >= 2 then
      match FlagValue(args[2..], flag)
      case Some(later) => Some(later)
      case None => if FlagName(args[0]) == FlagName(flag) then Some(args[1]) else None
    else FlagValue(args[1..], flag)
  }

  /** The arguments: words that are neither flags nor the values of flags. */
  function Positionals(args: seq<string>): seq<string>
    decreases |args|
  {
    if |args| == 0 then []
    else if args[0] in ValueFlags && |args| >= 2 then Positionals(args[2..])
    else if IsFlag(args[0]) then Positionals(args[1..])
    else [args[0]] + Positionals(args[1..])
  }

  /** The switches: flags that take no value. */
  function Switches(args: seq<string>): seq<string>
    decreases |args|
  {
    if |args| == 0 then []
    else if args[0] in ValueFlags && |args| >= 2 then Switches(args[2..])
    else if IsFlag(args[0]) then [args[0]] + Switches(args[1..])
    else Switches(args[1..])
  }

  /** A flag and its value in front of other words: the flag has that value
      unless a later occurrence overrides it, every other flag keeps the
      value the rest gives it, and no argument or switch is added. */
  lemma FlagValueFront(flag: string, value: string, rest: seq<string>)
    requires flag in ValueFlags
    ensures FlagValue(rest, flag).None? ==> FlagValue([flag, value] + rest, flag) == Some(value)
    ensures forall f :: FlagValue(rest, f).Some? ==> FlagValue([flag, value] + rest, f) == FlagValue(rest, f)
    ensures forall f :: FlagName(f) != FlagName(flag) ==> FlagValue([flag, value] + rest, f) == FlagValue(rest, f)
    ensures Positionals([flag, value] + rest) == Positionals(rest)
    ensures Switches([flag, value] + rest) == Switches(rest)
  {
    assert ([flag, value] + rest)[2..] == rest;
  }

  /** An argument in front of other words. */
  lemma PositionalFront(arg: string, rest: seq<string>)
    requires !IsFlag(arg)
    ensures forall f :: FlagValue([arg] + rest, f) == FlagValue(rest, f)
    ensures Positionals([arg] + rest) == [arg] + Positionals(rest)
    ensures Switches([arg] + rest) == Switches(rest)
  {
    ValueFlagsAreFlags();
    assert ([arg] + rest)[1..] == rest;
  }

  /** A switch in front of other words. */
  lemma SwitchFront(switch: string, rest: seq<string>)
    requires IsFlag(switch) && switch !in ValueFlags
    ensures forall f :: FlagValue([switch] + rest, f) == FlagValue(rest, f)
    ensures Positionals([switch] + rest) == Positionals(rest)
    ensures Switches([switch] + rest) == [switch] + Switches(rest)
  {
    assert ([switch] + rest)[1..] == rest;
  }

  /** A flag none of whose spellings occurs among the words has no value. */
  lemma {:induction false} FlagValueAbsent(args: seq<string>, flag: string)
    requires forall i :: 0 <= i < |args| ==> FlagName(args[i]) != FlagName(flag)
    ensures FlagValue(args, flag).None?
    decreases |args|
  {
    if |args| > 0 {
      if args[0] in ValueFlags && |args| >= 2 {
        FlagValueAbsent(args[2..], flag);
      } else {
        FlagValueAbsent(args[1..], flag);
      }
    }
  }
}
