/** Content steps that run concurrently: the failure of one does not stop the others. */
module Siblings {
  import opened Store
  import opened PlanMachine
  import PlanFiles
  import PlanTheorems
  import TornRuns
  import UpdatePlans

  // ---------------------------------------------------------------- a failed call has tried all content steps

  /** Content steps are all marked to run concurrently, or, in a loaded plan, none of them is. */
  ghost predicate Marked(plan: Plan, s: State)
    requires Sized(plan, s)
  {
    (forall i :: 0 <= i < |plan| ==> s.async[i] == plan[i].content) || (forall i :: 0 <= i < |plan| ==> !s.async[i])
  }

  ghost predicate MarkedAt(plan: Plan, t: seq<State>, k: nat) {
    k >= |t| || (Control(plan, t[k]) && Marked(plan, t[k]))
  }

  lemma {:induction false} RunMarked(plan: Plan, faults: Faults, f0: Files, t: seq<State>, k: nat)
    requires PlanMachine.WellFormed(plan, f0) && Run(plan, faults, f0, t) && k < |t|
    ensures MarkedAt(plan, t, k)
    decreases k
  {
    PlanFiles.RunInvariant(plan, faults, f0, t, k);
    if k > 0 {
      var before := k - 1;
      RunMarked(plan, faults, f0, t, before);
      assert Linked(plan, faults, t, before);
    }
  }

  /** Between t[a] and t[m] step j was executed, and failed. */
  ghost predicate FailedIn(plan: Plan, faults: Faults, t: seq<State>, a: nat, m: nat, j: nat)
    requires m < |t|
  {
    exists n: nat :: a < n < m && Finish(plan, faults, t[n], t[n + 1], j, false)
  }

  /**
   Inside a call, in state m: every content step behind the cursor is processed, in flight, or has failed in this
   call.
   */
  ghost predicate Tried(plan: Plan, faults: Faults, t: seq<State>, a: nat, m: nat)
    requires m < |t| && Sized(plan, t[m]) && t[m].phase.Active?
  {
    var ph := t[m].phase;
    && (forall j: nat :: j < |plan| && Passed(ph, j) && plan[j].content && t[m].done[j] == ph.back && j !in ph.inflight
          ==> FailedIn(plan, faults, t, a, m, j))
    && (ph.inflight != {} || ph.failed ==> exists i :: 0 <= i < |plan| && t[m].async[i])
  }

  lemma FailedLater(plan: Plan, faults: Faults, t: seq<State>, a: nat, m: nat, j: nat)
    requires m + 1 < |t| && FailedIn(plan, faults, t, a, m, j)
    ensures FailedIn(plan, faults, t, a, m + 1, j)
  {
    var n: nat :| a < n < m && Finish(plan, faults, t[n], t[n + 1], j, false);
    assert a < n < m + 1;
  }

  /** A step that was behind the cursor already, or has just failed. */
  lemma TriedAt(plan: Plan, faults: Faults, s: State, s': State, j: nat)
    requires Sized(plan, s) && Sized(plan, s') && Next(plan, faults, s, s') && s.phase.Active? && s'.phase.Active?
    requires j < |plan| && Passed(s'.phase, j) && plan[j].content && s'.done[j] == s'.phase.back
             && j !in s'.phase.inflight
    ensures s'.phase.back == s.phase.back
    ensures Finish(plan, faults, s, s', j, false)
            || (Passed(s.phase, j) && s.done[j] == s.phase.back && j !in s.phase.inflight)
  {
  }

  lemma TriedStep(plan: Plan, faults: Faults, t: seq<State>, a: nat, m: nat)
    requires Layout(plan) && a < m && m + 1 < |t| && Control(plan, t[m]) && Next(plan, faults, t[m], t[m + 1])
    requires t[m].phase.Active? && t[m + 1].phase.Active? && Tried(plan, faults, t, a, m)
    requires Sized(plan, t[m + 1])
    ensures Tried(plan, faults, t, a, m + 1)
  {
    var ph := t[m + 1].phase;
    forall j: nat | j < |plan| && Passed(ph, j) && plan[j].content && t[m + 1].done[j] == ph.back && j !in ph.inflight
      ensures FailedIn(plan, faults, t, a, m + 1, j)
    {
      TriedAt(plan, faults, t[m], t[m + 1], j);
      if !Finish(plan, faults, t[m], t[m + 1], j, false) { FailedLater(plan, faults, t, a, m, j); }
    }
  }

  lemma {:induction false} CallTried(plan: Plan, faults: Faults, t: seq<State>, a: nat, b: nat, back: bool, m: nat)
    requires PlanTheorems.Steps(plan, faults, t, a, b, back) && a < m < b
    requires t[a + 1].phase == Active(back, if back then |plan| - 1 else 0, {}, false)
    ensures PlanTheorems.Inside(plan, faults, t, m, back) && Tried(plan, faults, t, a, m)
  {
    assert PlanTheorems.Inside(plan, faults, t, m, back);
    if m > a + 1 {
      CallTried(plan, faults, t, a, b, back, m - 1);
      TriedStep(plan, faults, t, a, m - 1);
    }
  }

  /** The group failed: then all content steps are behind the cursor when the call returns. */
  lemma AllPassed(plan: Plan, faults: Faults, t: seq<State>, a: nat, m: nat, j: nat)
    requires Layout(plan) && m + 1 < |t| && Control(plan, t[m]) && t[m].phase.Active? && Tried(plan, faults, t, a, m)
    requires Marked(plan, t[m]) && Return(plan, t[m], t[m + 1]) && t[m].phase.failed
    requires j < |plan| && plan[j].content && t[m].done[j] == t[m].phase.back
    ensures Passed(t[m].phase, j)
  {
    var s := t[m];
    var x: nat :| x < |plan| && Passed(s.phase, x) && x !in s.phase.inflight && plan[x].content
        && s.done[x] == s.phase.back;
    assert forall i :: 0 <= i < |plan| ==> s.async[i] == plan[i].content;
    if AtStep(plan, s) && !Passed(s.phase, j) {
      assert !plan[s.phase.cursor].content;
    }
  }

  lemma ReturnedFailure(plan: Plan, faults: Faults, t: seq<State>, a: nat, b: nat, back: bool, j: nat)
    requires PlanTheorems.Steps(plan, faults, t, a, b, back)
    requires t[a + 1].phase == Active(back, if back then |plan| - 1 else 0, {}, false)
    requires Control(plan, t[b - 1]) && Marked(plan, t[b - 1]) && Return(plan, t[b - 1], t[b])
             && t[b].outcome == Failure
    requires j < |plan| && plan[j].content
    ensures Sized(plan, t[b]) && (t[b].done[j] == back ==> FailedIn(plan, faults, t, a, b - 1, j))
  {
    CallTried(plan, faults, t, a, b, back, b - 1);
    if t[b].done[j] == back { AllPassed(plan, faults, t, a, b - 1, j); }
  }

  /**
   A failing step stops no sibling: when a call of Apply or Revert returns the error of the group, every content
   step that it left undone was itself executed in that call, and failed.
   */
  lemma SiblingsAreTried(plan: Plan, faults: Faults, f0: Files, t: seq<State>, a: nat, b: nat, back: bool, j: nat)
    requires WellFormed(plan, f0) && Run(plan, faults, f0, t) && PlanTheorems.Call(plan, t, a, b, back)
    requires t[b].outcome == Failure && Return(plan, t[b - 1], t[b])
    requires j < |plan| && plan[j].content
    ensures Sized(plan, t[b]) && (t[b].done[j] == back ==> FailedIn(plan, faults, t, a, b - 1, j))
  {
    PlanFiles.RunInvariant(plan, faults, f0, t, 0);
    PlanTheorems.CallSteps(plan, faults, t, a, b, back);
    RunMarked(plan, faults, f0, t, b - 1);
    ReturnedFailure(plan, faults, t, a, b, back, j);
  }

  // ---------------------------------------------------------------- a sibling that starts and finishes after a failure

  /** From t[m] on: step i fails, then its sibling i + 1 is started, and succeeds. */
  ghost predicate StartsAfterFailure(plan: Plan, faults: Faults, t: seq<State>, m: nat, i: nat) {
    && m + 3 < |t|
    && Finish(plan, faults, t[m], t[m + 1], i, false)
    && Launch(plan, t[m + 1], t[m + 2]) && t[m + 1].phase.cursor == i + 1
    && Finish(plan, faults, t[m + 2], t[m + 3], i + 1, true)
  }

  /** t has run all steps before the first content step i. */
  lemma FailThenLaunch(plan: Plan, faults: Faults, f0: Files, t: seq<State>, i: nat)
    requires i + 1 < |plan| && plan[i].content && plan[i + 1].content && plan[i].run != []
    requires Run(plan, faults, f0, t) && TornRuns.RanFirst(plan, t[|t| - 1], i, false)
    ensures exists t': seq<State>, m: nat :: Run(plan, faults, f0, t') && StartsAfterFailure(plan, faults, t', m, i)
  {
    var s0 := t[|t| - 1];
    var s1 := s0.(phase := Active(false, i + 1, {i}, false));
    assert s0.phase.inflight + {s0.phase.cursor} == {i};
    assert Launch(plan, s0, s1);
    UpdatePlans.ExtendRun(plan, faults, f0, t, s1);
    TornRuns.CleanFailure(plan[i].run, s1.files, faults.tornRun);
    var s2 := s1.(phase := Active(false, i + 1, {}, true));
    assert Finish(plan, faults, s1, s2, i, false);
    UpdatePlans.ExtendRun(plan, faults, f0, t + [s1], s2);
    var s3 := s2.(phase := Active(false, i + 2, {i + 1}, true));
    assert s2.phase.inflight + {s2.phase.cursor} == {i + 1};
    assert Launch(plan, s2, s3);
    UpdatePlans.ExtendRun(plan, faults, f0, t + [s1] + [s2], s3);
    var s4 := s3.(files := DoAll(plan[i + 1].run, s3.files), done := s3.done[i + 1 := true],
                  phase := Active(false, i + 2, {}, true));
    assert Finish(plan, faults, s3, s4, i + 1, true);
    UpdatePlans.ExtendRun(plan, faults, f0, t + [s1] + [s2] + [s3], s4);
    var all := t + [s1] + [s2] + [s3] + [s4];
    assert StartsAfterFailure(plan, faults, all, |t|, i);
  }

  /** Wherever a plan has two content steps, the second can be started, and succeed, after the first has failed. */
  lemma SiblingRunsOn(plan: Plan, faults: Faults, f0: Files, i: nat)
    requires i + 1 < |plan| && plan[i].content && plan[i + 1].content && plan[i].run != []
    requires forall j :: 0 <= j < i ==> !plan[j].content
    ensures exists t: seq<State>, m: nat :: Run(plan, faults, f0, t) && StartsAfterFailure(plan, faults, t, m, i)
  {
    TornRuns.ForwardRun(plan, faults, f0, i, false);
    var t: seq<State> :| Run(plan, faults, f0, t) && TornRuns.RanFirst(plan, t[|t| - 1], i, false);
    FailThenLaunch(plan, faults, f0, t, i);
  }
}
