/** What update plans guarantee, over every sequence of Apply and Revert calls. */
module PlanTheorems {
  import opened Values
  import opened Store
  import opened PlanMachine
  import opened PlanFiles

  // ---------------------------------------------------------------- completed steps

  /** In every state of every run: the shape of the completed set, and the last step is never reverted. */
  lemma CompletedSteps(plan: Plan, faults: Faults, f0: Files, t: seq<State>, k: nat)
    requires WellFormed(plan, f0) && Run(plan, faults, f0, t) && k < |t|
    ensures |t[k].done| == |plan|
    ensures forall i: nat, j: nat :: i < |plan| && j < |plan| && Before(plan, i, j) && t[k].done[j] ==> t[k].done[i]
    ensures t[k].phase.Active? && t[k].phase.back ==> !t[k].done[|plan| - 1] && (|plan| - 1) !in t[k].phase.inflight
  {
    RunInvariant(plan, faults, f0, t, k);
  }

  /** When a call returns nil, Apply has completed every step and Revert has reverted every step. */
  lemma NilResult(plan: Plan, s: State, s': State)
    requires Layout(plan) && Control(plan, s) && Return(plan, s, s') && s'.outcome == Success
    ensures if s.phase.back then NoneDone(s'.done) else AllDone(s'.done)
  {
    forall j: nat | j < |plan| ensures s'.done[j] == !s.phase.back {
      assert Passed(s.phase, j);
    }
  }

  /** t[a..b] is one call: it begins in t[a] and has returned in t[b]. */
  ghost predicate Call(plan: Plan, t: seq<State>, a: nat, b: nat, back: bool) {
    && a + 1 < b < |t|
    && t[a].phase.Idle? && t[b].phase.Idle?
    && (if back then Revert(plan, t[a], t[a + 1]) else Apply(t[a], t[a + 1]))
    && forall k :: a < k < b ==> t[k].phase.Active? && t[k].phase.back == back
  }

  ghost predicate ApplyCall(plan: Plan, t: seq<State>, a: nat, b: nat) {
    Call(plan, t, a, b, false)
  }

  ghost predicate RevertCall(plan: Plan, t: seq<State>, a: nat, b: nat) {
    Call(plan, t, a, b, true)
  }

  /** From state m of t to the next is a transition inside a call. */
  ghost predicate Inside(plan: Plan, faults: Faults, t: seq<State>, m: nat, back: bool) {
    && m + 1 < |t| && Control(plan, t[m]) && t[m].phase.Active? && t[m].phase.back == back
    && Next(plan, faults, t[m], t[m + 1])
  }

  /** What is proved of the transitions inside a call: it starts with the files and flags of t[a]. */
  ghost predicate Steps(plan: Plan, faults: Faults, t: seq<State>, a: nat, b: nat, back: bool) {
    && a + 1 < b < |t| && Layout(plan)
    && |t[a].done| == |plan| && t[a + 1].files == t[a].files && t[a + 1].done == t[a].done
    && forall m: nat :: a < m < b ==> Inside(plan, faults, t, m, back)
  }

  /**
   t is a run that begins anywhere: with any files, and flags that have the shape. So begins a plan that was
   saved at some time, and is loaded after its process has died.
   */
  ghost predicate Resumed(plan: Plan, faults: Faults, t: seq<State>) {
    Trace(plan, faults, t) && Control(plan, t[0])
  }

  ghost predicate ControlAt(plan: Plan, t: seq<State>, k: nat) {
    k >= |t| || Control(plan, t[k])
  }

  lemma {:induction false} ResumedControl(plan: Plan, faults: Faults, t: seq<State>, k: nat)
    requires Layout(plan) && Resumed(plan, faults, t)
    ensures ControlAt(plan, t, k)
  {
    if 0 < k < |t| {
      ResumedControl(plan, faults, t, k - 1);
      assert ControlAt(plan, t, k - 1) && Linked(plan, faults, t, k - 1);
      NextKeepsControl(plan, faults, t[k - 1], t[k]);
    }
  }

  lemma CallSteps(plan: Plan, faults: Faults, t: seq<State>, a: nat, b: nat, back: bool)
    requires Layout(plan) && Resumed(plan, faults, t) && Call(plan, t, a, b, back)
    ensures Steps(plan, faults, t, a, b, back)
  {
    ResumedControl(plan, faults, t, a);
    assert Linked(plan, faults, t, a);
    forall m: nat | a < m < b ensures Inside(plan, faults, t, m, back) {
      ResumedControl(plan, faults, t, m);
      assert Linked(plan, faults, t, m);
    }
  }

  lemma NilCall(plan: Plan, faults: Faults, t: seq<State>, a: nat, b: nat, back: bool)
    requires Layout(plan) && Resumed(plan, faults, t) && Call(plan, t, a, b, back) && t[b].outcome == Success
    ensures |t[b].done| == |plan| && if back then NoneDone(t[b].done) else AllDone(t[b].done)
  {
    CallSteps(plan, faults, t, a, b, back);
    assert Inside(plan, faults, t, b - 1, back);
    assert Return(plan, t[b - 1], t[b]);
    NilResult(plan, t[b - 1], t[b]);
  }

  // ---------------------------------------------------------------- Apply

  /** Within one call of Apply that began in s0: what became of step i, and of the path p. */
  ghost predicate AppliedAt(plan: Plan, s0: State, f: Files, done: seq<bool>, i: nat, p: Path)
    requires |s0.done| == |done| == |plan| && i < |plan|
  {
    && (s0.done[i] ==> done[i])
    && (Hits(plan, i, p) ==>
          if s0.done[i] then Get(f, p) == Get(s0.files, p)
          else done[i] ==> Get(f, p) == Effect(plan[i].run, p).value)
    && (!IsHit(plan, p) ==> Get(f, p) == Get(s0.files, p))
  }

  lemma ExecApplies(plan: Plan, faults: Faults, s0: State, k: nat, ok: bool,
                    f: Files, done: seq<bool>, f': Files, done': seq<bool>, i: nat, p: Path)
    requires DisjointTargets(plan) && |s0.done| == |done| == |plan| && i < |plan| && k < |plan| && !done[k]
    requires Exec(plan, faults, false, k, ok, f, done, f', done') && AppliedAt(plan, s0, f, done, i, p)
    ensures AppliedAt(plan, s0, f', done', i, p)
  {
    DoAllAt(plan[k].run, f, p);
    if !Hits(plan, k, p) {
      if !ok { FailureIsLocal(plan[k].run, f, f', faults.tornRun, p); }
    } else {
      assert IsHit(plan, p);
      assert Hits(plan, i, p) ==> i == k;
    }
  }

  ghost predicate Applied(plan: Plan, s0: State, s: State) {
    && |s0.done| == |s.done| == |plan|
    && forall i: nat, p :: i < |plan| ==> AppliedAt(plan, s0, s.files, s.done, i, p)
  }

  lemma ApplyStep(plan: Plan, faults: Faults, s0: State, s: State, s': State)
    requires Layout(plan) && DisjointTargets(plan) && Applied(plan, s0, s)
    requires Control(plan, s) && s.phase.Active? && !s.phase.back && Next(plan, faults, s, s')
    ensures Applied(plan, s0, s')
  {
    var k, ok := NextIsExec(plan, faults, s, s');
    if !(s'.files == s.files && s'.done == s.done) {
      forall i: nat, p | i < |plan| ensures AppliedAt(plan, s0, s'.files, s'.done, i, p) {
        ExecApplies(plan, faults, s0, k, ok, s.files, s.done, s'.files, s'.done, i, p);
      }
    }
  }

  lemma {:induction false} ApplyCallAt(plan: Plan, faults: Faults, t: seq<State>, a: nat, b: nat, m: nat)
    requires DisjointTargets(plan) && Steps(plan, faults, t, a, b, false) && a < m <= b
    ensures Applied(plan, t[a], t[m])
  {
    if m > a + 1 {
      ApplyCallAt(plan, faults, t, a, b, m - 1);
      assert Inside(plan, faults, t, m - 1, false);
      ApplyStep(plan, faults, t[a], t[m - 1], t[m]);
    }
  }

  lemma FullRunAt(plan: Plan, f0: Files, i: nat, p: Path)
    requires DisjointTargets(plan) && i < |plan|
    ensures Hits(plan, i, p) ==> Get(FullRun(plan, f0), p) == Effect(plan[i].run, p).value
    ensures !IsHit(plan, p) ==> Get(FullRun(plan, f0), p) == Get(f0, p)
  {
    var all := seq(|plan|, i => i < |plan|);
    RunFirstAt(plan, f0, |plan|, p);
    if Hits(plan, i, p) {
      assert DoneHits(plan, all, i, p);
    } else if !IsHit(plan, p) {
      ExpectedMiss(plan, f0, all, p);
    }
  }

  lemma AppliedFileAt(plan: Plan, faults: Faults, f0: Files, t: seq<State>, a: nat, b: nat, p: Path)
    requires WellFormed(plan, f0) && Resumed(plan, faults, t) && ApplyCall(plan, t, a, b) && t[b].outcome == Success
    ensures |t[a].done| == |plan|
    ensures Get(t[b].files, p) == Get(FullRun(plan, f0), p) <==>
            Excused(plan, true, t[a].done, p) || Get(t[a].files, p) == Expected(plan, f0, t[a].done, p)
  {
    NilCall(plan, faults, t, a, b, false);
    CallSteps(plan, faults, t, a, b, false);
    var done := t[a].done;
    if i: nat :| i < |plan| && Hits(plan, i, p) {
      ApplyCallAt(plan, faults, t, a, b, b);
      assert AppliedAt(plan, t[a], t[b].files, t[b].done, i, p);
      FullRunAt(plan, f0, i, p);
      if done[i] {
        assert DoneHits(plan, done, i, p);
        assert !Excused(plan, true, done, p);
      } else {
        assert Excused(plan, true, done, p);
      }
    } else {
      ApplyCallAt(plan, faults, t, a, b, b);
      assert AppliedAt(plan, t[a], t[b].files, t[b].done, 0, p);
      FullRunAt(plan, f0, 0, p);
      ExpectedMiss(plan, f0, done, p);
    }
  }

  /**
   Whatever was called, lost or changed before, and whatever failed and tore files, an Apply that returns nil
   leaves the files of one uninterrupted run exactly when, before the call, every path held what the completed
   steps make of it, except targets of steps that were still to run.
   */
  lemma ApplyOutcome(plan: Plan, faults: Faults, f0: Files, t: seq<State>, a: nat, b: nat)
    requires WellFormed(plan, f0) && Resumed(plan, faults, t) && ApplyCall(plan, t, a, b) && t[b].outcome == Success
    ensures AllDone(t[b].done) && |t[a].done| == |plan|
    ensures t[b].files == FullRun(plan, f0) <==> Accurate(plan, true, f0, t[a].files, t[a].done)
  {
    NilCall(plan, faults, t, a, b, false);
    CallSteps(plan, faults, t, a, b, false);
    if t[b].files == FullRun(plan, f0) {
      forall p ensures Excused(plan, true, t[a].done, p) || Get(t[a].files, p) == Expected(plan, f0, t[a].done, p) {
        AppliedFileAt(plan, faults, f0, t, a, b, p);
      }
    }
    if Accurate(plan, true, f0, t[a].files, t[a].done) {
      forall p ensures Get(t[b].files, p) == Get(FullRun(plan, f0), p) {
        AppliedFileAt(plan, faults, f0, t, a, b, p);
      }
      SameFiles(t[b].files, FullRun(plan, f0));
    }
  }

  /** So it is whenever no revert has torn files, however many calls failed before, and for every schedule. */
  lemma ApplyConverges(plan: Plan, faults: Faults, f0: Files, t: seq<State>, a: nat, b: nat)
    requires WellFormed(plan, f0) && Run(plan, faults, f0, t) && !faults.tornRevert
    requires ApplyCall(plan, t, a, b) && t[b].outcome == Success
    ensures AllDone(t[b].done) && t[b].files == FullRun(plan, f0)
  {
    RunInvariant(plan, faults, f0, t, 0);
    RunInvariant(plan, faults, f0, t, a);
    ApplyOutcome(plan, faults, f0, t, a, b);
    forall p ensures Excused(plan, true, t[a].done, p) || Get(t[a].files, p) == Expected(plan, f0, t[a].done, p) {
      assert AccurateAt(plan, faults, f0, t[a].files, t[a].done, p);
      assert Excused(plan, faults.tornRun, t[a].done, p) ==> Excused(plan, true, t[a].done, p);
    }
  }

  // ---------------------------------------------------------------- Revert

  /** Outside swept directories, incomplete steps have left nothing behind. */
  ghost predicate NoResidue(plan: Plan, f0: Files, s: State)
    requires |s.done| == |plan|
  {
    forall i: nat, p :: i < |plan| && !s.done[i] && Hits(plan, i, p) && !InSweptDir(plan, p) ==>
      Get(s.files, p) == Get(f0, p)
  }

  /** Between s0 and s a step was reverted that restores p. */
  ghost predicate RevertedOver(plan: Plan, s0: State, s: State, p: Path)
    requires |s0.done| == |s.done| == |plan|
  {
    exists i: nat :: i < |plan| - 1 && s0.done[i] && !s.done[i] && Restores(plan, i, p)
  }

  /** Within one call of Revert that began in s0, as long as nothing fails: p is restored, or untouched. */
  ghost predicate RevertedAt(plan: Plan, f0: Files, s0: State, s: State, p: Path)
    requires |s0.done| == |s.done| == |plan|
  {
    Get(s.files, p) == if RevertedOver(plan, s0, s, p) then Get(f0, p) else Get(s0.files, p)
  }

  ghost predicate Reverted(plan: Plan, f0: Files, s0: State, s: State) {
    && |s0.done| == |s.done| == |plan| && (forall i :: 0 <= i < |plan| && s.done[i] ==> s0.done[i])
    && (Unfailed(s) ==> forall p :: RevertedAt(plan, f0, s0, s, p))
  }

  lemma RevertedOneMore(plan: Plan, f0: Files, s0: State, s: State, s': State, k: nat, p: Path)
    requires WellFormed(plan, f0) && |s0.done| == |s.done| == |plan| && k < |plan| - 1 && s.done[k] && s0.done[k]
    requires s'.files == DoAll(plan[k].revert, s.files) && s'.done == s.done[k := false]
             && RevertedAt(plan, f0, s0, s, p)
    ensures RevertedAt(plan, f0, s0, s', p)
  {
    assert Undoes(plan, f0, k);
    DoAllAt(plan[k].revert, s.files, p);
    if Restores(plan, k, p) {
      assert RevertedOver(plan, s0, s', p);
    } else if i: nat :| i < |plan| - 1 && s0.done[i] && !s.done[i] && Restores(plan, i, p) {
      assert i != k && !s'.done[i];
    }
  }

  lemma RevertStep(plan: Plan, faults: Faults, f0: Files, s0: State, s: State, s': State)
    requires WellFormed(plan, f0) && Reverted(plan, f0, s0, s)
    requires Control(plan, s) && s.phase.Active? && s.phase.back && Next(plan, faults, s, s')
    ensures Reverted(plan, f0, s0, s')
  {
    var k, ok := NextIsExec(plan, faults, s, s');
    if s'.files == s.files && s'.done == s.done {
      forall p ensures Unfailed(s') ==> RevertedAt(plan, f0, s0, s', p) {
        assert Unfailed(s') ==> RevertedAt(plan, f0, s0, s, p);
      }
    } else if Unfailed(s') {
      forall p ensures RevertedAt(plan, f0, s0, s', p) {
        RevertedOneMore(plan, f0, s0, s, s', k, p);
      }
    }
  }

  lemma {:induction false} RevertCallAt(plan: Plan, faults: Faults, f0: Files, t: seq<State>, a: nat, b: nat, m: nat)
    requires WellFormed(plan, f0) && Steps(plan, faults, t, a, b, true) && a < m <= b && Unfailed(t[a + 1])
    ensures Reverted(plan, f0, t[a], t[m])
  {
    if m > a + 1 {
      RevertCallAt(plan, faults, f0, t, a, b, m - 1);
      assert Inside(plan, faults, t, m - 1, true);
      RevertStep(plan, faults, f0, t[a], t[m - 1], t[m]);
    }
  }

  /**
   Wherever the run began, after a Revert that returns nil a path is as in f0 if a completed step restores it, and as
   before otherwise.
   */
  lemma RevertOutcomeAt(plan: Plan, faults: Faults, f0: Files, t: seq<State>, a: nat, b: nat, p: Path)
    requires WellFormed(plan, f0) && Resumed(plan, faults, t) && RevertCall(plan, t, a, b) && t[b].outcome == Success
    ensures |t[a].done| == |plan|
    ensures Get(t[b].files, p) == if Covered(plan, t[a].done, p) then Get(f0, p) else Get(t[a].files, p)
  {
    CallSteps(plan, faults, t, a, b, true);
    NilCall(plan, faults, t, a, b, true);
    RevertCallAt(plan, faults, f0, t, a, b, b);
    assert RevertedAt(plan, f0, t[a], t[b], p);
    assert Covered(plan, t[a].done, p) <==> RevertedOver(plan, t[a], t[b], p);
  }

  /**
   Whatever was called, lost or changed before, a Revert that returns nil restores the object exactly when every
   path that no completed step restores was as in the original object.
   */
  lemma RevertOutcome(plan: Plan, faults: Faults, f0: Files, t: seq<State>, a: nat, b: nat)
    requires WellFormed(plan, f0) && Resumed(plan, faults, t) && RevertCall(plan, t, a, b) && t[b].outcome == Success
    ensures NoneDone(t[b].done) && |t[a].done| == |plan|
    ensures t[b].files == f0 <==> forall p :: Covered(plan, t[a].done, p) || Get(t[a].files, p) == Get(f0, p)
  {
    NilCall(plan, faults, t, a, b, true);
    CallSteps(plan, faults, t, a, b, true);
    forall p
      ensures Get(t[b].files, p) == if Covered(plan, t[a].done, p) then Get(f0, p) else Get(t[a].files, p)
    {
      RevertOutcomeAt(plan, faults, f0, t, a, b, p);
    }
    if forall p :: Covered(plan, t[a].done, p) || Get(t[a].files, p) == Get(f0, p) {
      SameFiles(t[b].files, f0);
    }
  }

  /**
   In a run from the start, a path that no completed step restores is original, or left behind by its incomplete step.
   */
  lemma RevertedFileAt(plan: Plan, faults: Faults, f0: Files, t: seq<State>, a: nat, b: nat, p: Path)
    requires WellFormed(plan, f0) && Run(plan, faults, f0, t)
    requires RevertCall(plan, t, a, b) && t[b].outcome == Success
    ensures |t[a].done| == |plan|
    ensures if i: nat :| i < |plan| && !t[a].done[i] && Hits(plan, i, p) && !InSweptDir(plan, p)
            then Get(t[b].files, p) == Get(t[a].files, p) else Get(t[b].files, p) == Get(f0, p)
  {
    RunInvariant(plan, faults, f0, t, a);
    RunInvariant(plan, faults, f0, t, 0);
    RevertOutcomeAt(plan, faults, f0, t, a, b, p);
    CoveredOrOriginal(plan, faults, f0, t[a], p);
  }

  lemma CoveredOrOriginal(plan: Plan, faults: Faults, f0: Files, s: State, p: Path)
    requires WellFormed(plan, f0) && Invariant(plan, faults, f0, s) && !s.done[|plan| - 1]
    ensures if i: nat :| i < |plan| && !s.done[i] && Hits(plan, i, p) && !InSweptDir(plan, p)
            then !Covered(plan, s.done, p) else Covered(plan, s.done, p) || Get(s.files, p) == Get(f0, p)
  {
    if InSweptDir(plan, p) {
      var i: nat :| i < |plan| - 1 && Sweeps(plan, i) && Restores(plan, i, p);
      FirstSweeper(plan, i, p);
      var first: nat :| FirstSweep(plan, first, p);
      assert SweptAt(plan, f0, first, s.files, s.done, p);
    } else if i: nat :| i < |plan| && Hits(plan, i, p) {
      forall j: nat | j < |plan| - 1 && s.done[j] && Restores(plan, j, p) ensures j == i {
        assert Undoes(plan, f0, j);
      }
      assert i < |plan| - 1 ==> Undoes(plan, f0, i);
    } else {
      assert UntouchedAt(plan, f0, s.files, p);
    }
  }

  /**
   A Revert that returns nil restores the object exactly when, before the call, no failed step had left
   anything behind outside the swept directories. Runs and reverts may tear files; earlier calls are arbitrary.
   */
  lemma RevertRestores(plan: Plan, faults: Faults, f0: Files, t: seq<State>, a: nat, b: nat)
    requires WellFormed(plan, f0) && Run(plan, faults, f0, t)
    requires RevertCall(plan, t, a, b) && t[b].outcome == Success
    ensures NoneDone(t[b].done) && |t[a].done| == |plan|
    ensures t[b].files == f0 <==> NoResidue(plan, f0, t[a])
  {
    RunInvariant(plan, faults, f0, t, 0);
    NilCall(plan, faults, t, a, b, true);
    RunInvariant(plan, faults, f0, t, a);
    if NoResidue(plan, f0, t[a]) {
      forall p ensures Get(t[b].files, p) == Get(f0, p) {
        RevertedFileAt(plan, faults, f0, t, a, b, p);
      }
      SameFiles(t[b].files, f0);
    }
    if t[b].files == f0 {
      forall i: nat, p | i < |plan| && !t[a].done[i] && Hits(plan, i, p) && !InSweptDir(plan, p)
        ensures Get(t[a].files, p) == Get(f0, p)
      {
        RevertedFileAt(plan, faults, f0, t, a, b, p);
      }
    }
  }

  /** Every run action is at most one storage operation. */
  predicate Atomic(plan: Plan) {
    forall i :: 0 <= i < |plan| ==> |plan[i].run| <= 1
  }

  /** With all-or-nothing operations every state holds exactly what its completed steps wrote. */
  lemma ExactFiles(plan: Plan, f0: Files, t: seq<State>, k: nat, p: Path)
    requires WellFormed(plan, f0) && Atomic(plan) && Run(plan, Faults(false, false), f0, t) && k < |t|
    ensures |t[k].done| == |plan| && Get(t[k].files, p) == Expected(plan, f0, t[k].done, p)
  {
    RunInvariant(plan, Faults(false, false), f0, t, k);
    assert AccurateAt(plan, Faults(false, false), f0, t[k].files, t[k].done, p);
    assert !Excused(plan, false, t[k].done, p);
  }

  /** With all-or-nothing operations, any run that ends in a nil Revert has restored the object. */
  lemma AtomicRevertRestores(plan: Plan, f0: Files, t: seq<State>, a: nat, b: nat)
    requires WellFormed(plan, f0) && Atomic(plan) && Run(plan, Faults(false, false), f0, t)
    requires RevertCall(plan, t, a, b) && t[b].outcome == Success
    ensures t[b].files == f0 && NoneDone(t[b].done)
  {
    RunInvariant(plan, Faults(false, false), f0, t, a);
    forall i: nat, p | i < |plan| && !t[a].done[i] && Hits(plan, i, p) ensures Get(t[a].files, p) == Get(f0, p) {
      ExactFiles(plan, f0, t, a, p);
      ExpectedMiss(plan, f0, t[a].done, p);
    }
    RevertRestores(plan, Faults(false, false), f0, t, a, b);
  }

  /** When reverting the first step removes everything, a nil Revert restores the object after any faults at all. */
  lemma FirstVersionRevertRestores(plan: Plan, faults: Faults, f0: Files, t: seq<State>, a: nat, b: nat)
    requires WellFormed(plan, f0) && Sweeps(plan, 0) && forall p :: Restores(plan, 0, p)
    requires Run(plan, faults, f0, t) && RevertCall(plan, t, a, b) && t[b].outcome == Success
    ensures t[b].files == f0 && NoneDone(t[b].done)
  {
    RunInvariant(plan, faults, f0, t, b);
    RunInvariant(plan, faults, f0, t, 0);
    NilCall(plan, faults, t, a, b, true);
    forall p ensures Get(t[b].files, p) == Get(f0, p) {
      assert SweptAt(plan, f0, 0, t[b].files, t[b].done, p);
      assert FirstSweep(plan, 0, p);
    }
    SameFiles(t[b].files, f0);
  }

  // ---------------------------------------------------------------- commit order

  ghost predicate OnlyApply(t: seq<State>) {
    forall k :: 0 <= k < |t| && t[k].phase.Active? ==> !t[k].phase.back
  }

  /** A target of step i has changed only if every step before i is complete. */
  ghost predicate InOrder(plan: Plan, f0: Files, f: Files, done: seq<bool>, i: nat, p: Path)
    requires |done| == |plan| && i < |plan|
  {
    Hits(plan, i, p) && Get(f, p) != Get(f0, p) ==> forall j: nat :: j < |plan| && Before(plan, j, i) ==> done[j]
  }

  lemma RunKeepsOrder(plan: Plan, faults: Faults, f0: Files, k: nat, ok: bool,
                      f: Files, done: seq<bool>, f': Files, done': seq<bool>, i: nat, p: Path)
    requires DisjointTargets(plan) && |done| == |plan| && i < |plan| && k < |plan| && Ready(plan, false, done, k)
    requires Exec(plan, faults, false, k, ok, f, done, f', done') && InOrder(plan, f0, f, done, i, p)
    ensures InOrder(plan, f0, f', done', i, p)
  {
    if Hits(plan, i, p) && k != i {
      assert !Hits(plan, k, p);
      DoAllAt(plan[k].run, f, p);
      if !ok { FailureIsLocal(plan[k].run, f, f', faults.tornRun, p); }
    }
  }

  lemma {:induction false} ApplyInOrder(plan: Plan, faults: Faults, f0: Files, t: seq<State>, k: nat, i: nat, p: Path)
    requires WellFormed(plan, f0) && Run(plan, faults, f0, t) && OnlyApply(t) && k < |t| && i < |plan|
    ensures |t[k].done| == |plan| && InOrder(plan, f0, t[k].files, t[k].done, i, p)
  {
    RunInvariant(plan, faults, f0, t, k);
    assert Linked(plan, faults, t, k);
    if k > 0 {
      ApplyInOrder(plan, faults, f0, t, k - 1, i, p);
      RunInvariant(plan, faults, f0, t, k - 1);
      assert Linked(plan, faults, t, k - 1);
      StepInOrder(plan, faults, f0, t[k - 1], t[k], i, p);
    }
  }

  lemma StepInOrder(plan: Plan, faults: Faults, f0: Files, s: State, s': State, i: nat, p: Path)
    requires Layout(plan) && DisjointTargets(plan) && Control(plan, s) && Next(plan, faults, s, s') && i < |plan|
    requires (s.phase.Active? ==> !s.phase.back) && InOrder(plan, f0, s.files, s.done, i, p)
    ensures |s'.done| == |plan| && InOrder(plan, f0, s'.files, s'.done, i, p)
  {
    var j, ok := NextIsExec(plan, faults, s, s');
    if !(s'.files == s.files && s'.done == s.done) {
      RunKeepsOrder(plan, faults, f0, j, ok, s.files, s.done, s'.files, s'.done, i, p);
    }
  }

  lemma AtomicInOrder(plan: Plan, f0: Files, t: seq<State>, k: nat, i: nat, p: Path)
    requires WellFormed(plan, f0) && Atomic(plan) && Run(plan, Faults(false, false), f0, t) && k < |t| && i < |plan|
    ensures |t[k].done| == |plan| && InOrder(plan, f0, t[k].files, t[k].done, i, p)
  {
    RunInvariant(plan, Faults(false, false), f0, t, k);
    ExactFiles(plan, f0, t, k, p);
    if Hits(plan, i, p) && !t[k].done[i] {
      ExpectedMiss(plan, f0, t[k].done, p);
    }
  }

  /** Faults in reverts do not matter to a run without reverts. */
  lemma OnlyApplyRun(plan: Plan, faults: Faults, f0: Files, t: seq<State>)
    requires Run(plan, faults, f0, t) && OnlyApply(t)
    ensures Run(plan, Faults(faults.tornRun, false), f0, t)
  {
    forall i: nat ensures Linked(plan, Faults(faults.tornRun, false), t, i) {
      assert Linked(plan, faults, t, i);
      if i + 1 < |t| { ForwardNext(plan, faults, t[i], t[i + 1]); }
    }
  }

  lemma ForwardNext(plan: Plan, faults: Faults, s: State, s': State)
    requires Next(plan, faults, s, s') && (s.phase.Active? ==> !s.phase.back)
    ensures Next(plan, Faults(faults.tornRun, false), s, s')
  {
    var only := Faults(faults.tornRun, false);
    if i, ok :| Finish(plan, faults, s, s', i, ok) {
      assert Finish(plan, only, s, s', i, ok);
    } else if ok :| SyncStep(plan, faults, s, s', ok) {
      assert SyncStep(plan, only, s, s', ok);
    }
  }

  /**
   Commit order: once any target of step i differs from the original object, every target of every
   earlier step (siblings in the content group aside) already holds its new value. It holds in every
   state of Apply calls with torn failures, and, with all-or-nothing operations, of any calls.
   */
  lemma CommitOrder(plan: Plan, faults: Faults, f0: Files, t: seq<State>, k: nat, i: nat, p: Path, j: nat, q: Path)
    requires WellFormed(plan, f0) && Run(plan, faults, f0, t) && k < |t| && i < |plan| && j < |plan|
    requires OnlyApply(t) || (Atomic(plan) && faults == Faults(false, false))
    requires Hits(plan, i, p) && Get(t[k].files, p) != Get(f0, p)
    requires Before(plan, j, i) && Hits(plan, j, q)
    ensures Get(t[k].files, q) == Effect(plan[j].run, q).value
  {
    if OnlyApply(t) {
      ApplyInOrder(plan, faults, f0, t, k, i, p);
      OnlyApplyRun(plan, faults, f0, t);
    } else {
      AtomicInOrder(plan, f0, t, k, i, p);
    }
    var only := Faults(faults.tornRun, false);
    RunInvariant(plan, only, f0, t, k);
    assert DoneHits(plan, t[k].done, j, q);
    assert AccurateAt(plan, only, f0, t[k].files, t[k].done, q);
    assert !Excused(plan, only.tornRun, t[k].done, q);
  }

  /**
   Whatever tore files before, after a Revert that returns nil the changed paths are in commit order exactly
   when no failed step had left anything behind before the call: what was left stays, its predecessors do not.
   */
  lemma RevertedInOrder(plan: Plan, faults: Faults, f0: Files, t: seq<State>, a: nat, b: nat)
    requires WellFormed(plan, f0) && Sweeps(plan, 0) && Run(plan, faults, f0, t)
    requires RevertCall(plan, t, a, b) && t[b].outcome == Success
    ensures |t[a].done| == |plan| && |t[b].done| == |plan|
    ensures (forall i: nat, p :: i < |plan| ==> InOrder(plan, f0, t[b].files, t[b].done, i, p)) <==>
            NoResidue(plan, f0, t[a])
  {
    RevertRestores(plan, faults, f0, t, a, b);
    RunInvariant(plan, faults, f0, t, 0);
    NilCall(plan, faults, t, a, b, true);
    if forall i: nat, p :: i < |plan| ==> InOrder(plan, f0, t[b].files, t[b].done, i, p) {
      forall p ensures Get(t[b].files, p) == Get(f0, p) {
        RevertedFileAt(plan, faults, f0, t, a, b, p);
        if i: nat :| i < |plan| && Hits(plan, i, p) {
          assert InOrder(plan, f0, t[b].files, t[b].done, i, p);
          assert Before(plan, 0, i);
        }
      }
      SameFiles(t[b].files, f0);
    }
  }
}
