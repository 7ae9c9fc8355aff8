/** Runs of the system, and series of steps from the states they visit. */
module Runs {
  import opened Wrappers
  import opened Proxy
  import opened System

  lemma {:induction false} RunStepsConcat(c: Config, s: Sys, first: seq<Step>, second: seq<Step>)
    ensures RunSteps(c, s, first + second)
         == match RunSteps(c, s, first) case None => None case Some(t) => RunSteps(c, t, second)
    decreases |first|
  {
    if first == [] {
      assert first + second == second;
    } else {
      assert (first + second)[1..] == first[1..] + second;
      if Enabled(s, first[0]) {
        RunStepsConcat(c, Do(c, s, first[0]), first[1..], second);
      }
    }
  }

  /** One step, then the others. */
  lemma StepThen(c: Config, s: Sys, step: Step, steps: seq<Step>, t: Sys)
    requires Enabled(s, step) && RunSteps(c, Do(c, s, step), steps) == Some(t)
    ensures RunSteps(c, s, [step] + steps) == Some(t)
  {
    assert ([step] + steps)[1..] == steps;
  }

  lemma Nothing(c: Config, s: Sys)
    ensures RunSteps(c, s, []) == Some(s)
  {
  }

  lemma RunCut(c: Config, states: seq<Sys>, steps: seq<Step>, i: nat)
    requires IsRun(c, states, steps) && i < |states|
    ensures IsRun(c, states[..i + 1], steps[..i])
  {
    var states', steps' := states[..i + 1], steps[..i];
    forall k | 0 <= k < |steps'| ensures Enabled(states'[k], steps'[k]) && states'[k + 1] == Do(c, states'[k], steps'[k]) {
      assert Enabled(states[k], steps[k]) && states[k + 1] == Do(c, states[k], steps[k]);
    }
  }

  lemma RunGrows(c: Config, states: seq<Sys>, steps: seq<Step>, s: Sys, step: Step)
    requires IsRun(c, states, steps) && s == states[|steps|] && Enabled(s, step)
    ensures IsRun(c, states + [Do(c, s, step)], steps + [step])
  {
    var s' := Do(c, s, step);
    var states', steps' := states + [s'], steps + [step];
    forall k | 0 <= k < |steps'| ensures Enabled(states'[k], steps'[k]) && states'[k + 1] == Do(c, states'[k], steps'[k]) {
      if k < |steps| {
        assert Enabled(states[k], steps[k]) && states[k + 1] == Do(c, states[k], steps[k]);
      }
    }
  }

  lemma ReachableNext(c: Config, s: Sys, step: Step, s': Sys)
    requires Reachable(c, s) && Enabled(s, step) && s' == Do(c, s, step)
    ensures Reachable(c, s')
  {
    var states, steps :| IsRun(c, states, steps) && s in states;
    var i :| 0 <= i < |states| && states[i] == s;
    RunCut(c, states, steps, i);
    RunGrows(c, states[..i + 1], steps[..i], s, step);
    var grown := states[..i + 1] + [s'];
    assert grown[i + 1] == s';
  }

  lemma ReachableStart(c: Config)
    ensures Reachable(c, Initial(c))
  {
    assert IsRun(c, [Initial(c)], []);
    assert Initial(c) in [Initial(c)];
  }

  /** A series of steps from a state of some run leads to a state of some run. */
  lemma {:induction false} ReachableRun(c: Config, s: Sys, steps: seq<Step>, t: Sys)
    requires Reachable(c, s) && RunSteps(c, s, steps) == Some(t)
    ensures Reachable(c, t)
    decreases |steps|
  {
    if steps != [] {
      ReachableNext(c, s, steps[0], Do(c, s, steps[0]));
      ReachableRun(c, Do(c, s, steps[0]), steps[1..], t);
    }
  }
}
