/** What a run of the terminals comes to: who was killed, and what each reader put out. */
module TerminalOutcomes {
  import opened Terminals
  import opened TerminalLaws

  /** Step `k` kills the session of reader `r`: it is the one mapped, under its own id or with all of them. */
  ghost predicate Kills(run: seq<State>, steps: seq<Step>, k: nat, r: nat) {
    && k < |run| && k < |steps| && r in run[k].sessions.Values
    && (steps[k].KillAll? ||
        (steps[k].Kill? && steps[k].id in run[k].sessions && run[k].sessions[steps[k].id] == r))
  }

  lemma KilledStep(s: State, step: Step, r: nat)
    requires Enabled(s, step)
    ensures r in Do(s, step).killed <==>
      || r in s.killed
      || (step.KillAll? && r in s.sessions.Values)
      || (step.Kill? && step.id in s.sessions && s.sessions[step.id] == r)
    ensures step.Kill? ==> Do(s, step).sessions == s.sessions - {step.id}
    ensures step.KillAll? ==> Do(s, step).sessions == map[]
  {
    hide Dead;
    if step.Kill? && step.id !in s.sessions {
      assert s.sessions - {step.id} == s.sessions;
    }
  }

  /** A session counts as killed if and only if a kill took it out of the map. */
  lemma {:induction false} KilledIff(run: seq<State>, steps: seq<Step>, i: nat, r: nat)
    requires IsRun(run, steps) && i < |run|
    ensures r in run[i].killed <==> exists k: nat :: k < i && Kills(run, steps, k, r)
  {
    hide Do;
    if i > 0 {
      assert Enabled(run[i - 1], steps[i - 1]) && run[i] == Do(run[i - 1], steps[i - 1]);
      KilledIff(run, steps, i - 1, r);
      KilledStep(run[i - 1], steps[i - 1], r);
      if Kills(run, steps, i - 1, r) {
        assert r in run[i].killed;
      }
    }
  }

  // ----- what a reader puts out

  /** What the first `i` steps make reader `r` put out. */
  function PutOut(steps: seq<Step>, i: nat, r: nat): seq<Output>
    requires i <= |steps|
  {
    if i == 0 then []
    else
      PutOut(steps, i - 1, r)
      + if steps[i - 1] == ReadData(r) then [Data(r)] else if steps[i - 1] == FireExit(r) then [Exit(r)] else []
  }

  lemma OutputStep(s: State, step: Step, r: nat)
    requires Enabled(s, step)
    ensures OutputsOf(Do(s, step).outputs, r) == OutputsOf(s.outputs, r)
            + if step == ReadData(r) then [Data(r)] else if step == FireExit(r) then [Exit(r)] else []
  {
    hide OutputsOf, Dead;
    if step.ReadData? {
      OutputsOfAppend(s.outputs, Data(step.r), r);
    } else if step.FireExit? {
      OutputsOfAppend(s.outputs, Exit(step.r), r);
    }
  }

  /** In every run a reader puts out its data once for each time it reads some, and its exit when it fires it. */
  lemma {:induction false} OutputsTell(run: seq<State>, steps: seq<Step>, i: nat, r: nat)
    requires IsRun(run, steps) && i < |run|
    ensures OutputsOf(run[i].outputs, r) == PutOut(steps, i, r)
  {
    hide Do;
    if i > 0 {
      assert Enabled(run[i - 1], steps[i - 1]) && run[i] == Do(run[i - 1], steps[i - 1]);
      OutputsTell(run, steps, i - 1, r);
      OutputStep(run[i - 1], steps[i - 1], r);
    }
  }
}
