/** Processes that die at any time, and plans loaded from any earlier save. */
module Crashes {
  import opened Values
  import opened Store
  import opened PlanMachine
  import opened PlanFiles
  import opened PlanTheorems
  import TornRuns

  /** p is a path that some step in flight, or the one at the cursor, works on. */
  ghost predicate InProgress(plan: Plan, s: State, p: Path) {
    s.phase.Active? && exists i: nat ::
      && i < |plan| && (i in s.phase.inflight || i == s.phase.cursor)
      && if s.phase.back then Restores(plan, i, p) else Hits(plan, i, p)
  }

  /**
   The process dies in s, and a plan that was saved with these flags is loaded. What was in progress left anything.
   */
  ghost predicate Crash(plan: Plan, s: State, s': State, saved: seq<bool>) {
    && s'.phase.Idle? && s'.done == saved && s'.async == TornRuns.AsyncFlags(plan, true)
    && forall p :: InProgress(plan, s, p) || Get(s'.files, p) == Get(s.files, p)
  }

  /** Process k + 1 goes on where process k died, with a plan saved in any state of any process before. */
  ghost predicate GoesOn(plan: Plan, faults: Faults, ts: seq<seq<State>>, k: nat) {
    k + 1 < |ts| ==>
      && ts[k] != [] && Trace(plan, faults, ts[k + 1])
      && exists j: nat, m: nat :: j <= k && m < |ts[j]| && Crash(plan, ts[k][|ts[k]| - 1], ts[k + 1][0], ts[j][m].done)
  }

  /** What the processes did, one after the other, with an object whose files were f0. */
  ghost predicate Lives(plan: Plan, faults: Faults, f0: Files, ts: seq<seq<State>>) {
    |ts| > 0 && Run(plan, faults, f0, ts[0]) && forall k: nat :: GoesOn(plan, faults, ts, k)
  }

  ghost predicate ResumedAt(plan: Plan, faults: Faults, ts: seq<seq<State>>, k: nat) {
    k < |ts| ==> Resumed(plan, faults, ts[k])
  }

  lemma {:induction false} LivesAreResumed(plan: Plan, faults: Faults, f0: Files, ts: seq<seq<State>>, k: nat)
    requires WellFormed(plan, f0) && Lives(plan, faults, f0, ts)
    ensures forall j: nat :: j <= k ==> ResumedAt(plan, faults, ts, j)
    decreases k
  {
    if k == 0 {
      RunInvariant(plan, faults, f0, ts[0], 0);
    } else {
      LivesAreResumed(plan, faults, f0, ts, k - 1);
      if k < |ts| { NextIsResumed(plan, faults, ts, k - 1); }
    }
  }

  lemma NextIsResumed(plan: Plan, faults: Faults, ts: seq<seq<State>>, k: nat)
    requires Layout(plan) && k + 1 < |ts| && GoesOn(plan, faults, ts, k)
    requires forall j: nat :: j <= k ==> ResumedAt(plan, faults, ts, j)
    ensures Resumed(plan, faults, ts[k + 1])
  {
    var j: nat, m: nat :|
      j <= k && m < |ts[j]| && Crash(plan, ts[k][|ts[k]| - 1], ts[k + 1][0], ts[j][m].done);
    assert ResumedAt(plan, faults, ts, j);
    ResumedControl(plan, faults, ts[j], m);
    assert ControlAt(plan, ts[j], m);
  }

  /**
   When Apply returns nil in any process: the files are those of one uninterrupted run exactly if they agreed with the
   flags.
   */
  lemma ApplyAfterCrashes(plan: Plan, faults: Faults, f0: Files, ts: seq<seq<State>>, k: nat, a: nat, b: nat)
    requires WellFormed(plan, f0) && Lives(plan, faults, f0, ts) && k < |ts|
    requires ApplyCall(plan, ts[k], a, b) && ts[k][b].outcome == Success
    ensures AllDone(ts[k][b].done) && |ts[k][a].done| == |plan|
    ensures ts[k][b].files == FullRun(plan, f0) <==> Accurate(plan, true, f0, ts[k][a].files, ts[k][a].done)
  {
    LivesAreResumed(plan, faults, f0, ts, k);
    assert ResumedAt(plan, faults, ts, k);
    ApplyOutcome(plan, faults, f0, ts[k], a, b);
  }

  /**
   When Revert returns nil in any process: the object is restored exactly if all paths but those of completed steps
   were original.
   */
  lemma RevertAfterCrashes(plan: Plan, faults: Faults, f0: Files, ts: seq<seq<State>>, k: nat, a: nat, b: nat)
    requires WellFormed(plan, f0) && Lives(plan, faults, f0, ts) && k < |ts|
    requires RevertCall(plan, ts[k], a, b) && ts[k][b].outcome == Success
    ensures NoneDone(ts[k][b].done) && |ts[k][a].done| == |plan|
    ensures ts[k][b].files == f0 <==>
            forall p :: Covered(plan, ts[k][a].done, p) || Get(ts[k][a].files, p) == Get(f0, p)
  {
    LivesAreResumed(plan, faults, f0, ts, k);
    assert ResumedAt(plan, faults, ts, k);
    RevertOutcome(plan, faults, f0, ts[k], a, b);
  }

  // ---------------------------------------------------------------- stale flags

  const NO_FAULTS := Faults(false, false)

  /** A process that loads a plan without completed steps, reverts it, and gets nil: nothing has changed. */
  lemma EmptyRevert(plan: Plan, faults: Faults, f0: Files, s: State)
    requires WellFormed(plan, f0) && s.phase.Idle? && s.done == TornRuns.FirstDone(plan, 0)
    requires s.async == TornRuns.AsyncFlags(plan, true)
    ensures exists t: seq<State>, b: nat ::
      && Trace(plan, faults, t) && t[0] == s && RevertCall(plan, t, 0, b) && t[b].outcome == Success
      && t[b].files == s.files
  {
    var r := s.(phase := Active(true, |plan| - 1, {}, false));
    assert !s.done[0];
    assert Revert(plan, s, r);
    var t0 := [s] + [r];
    forall i: nat ensures Linked(plan, faults, t0, i) {}
    TornRuns.RunToEnd(plan, faults, t0, 0, |plan| - 1, true);
    var t: seq<State> :| Trace(plan, faults, t) && TornRuns.EndsCall(t0, t, 0, true);
    var b := |t| - 1;
    assert t[0] == t0[0] && t[1] == t0[1];
    assert Control(plan, s);
    forall p ensures Get(t[b].files, p) == Get(s.files, p) {
      RevertOutcomeAt(plan, faults, f0, t, 0, b, p);
    }
    SameFiles(t[b].files, s.files);
  }

  /**
   For every step that writes something new there are two processes, without any fault: the first dies after the
   step, the second loads the plan as it was first saved, and its Revert returns nil with the new file in place.
   */
  lemma StaleFlagsSpoilRevert(plan: Plan, f0: Files, i: nat, p: Path, v: Option<Bytes>)
    requires WellFormed(plan, f0) && i < |plan| && Effect(plan[i].run, p) == Some(v) && Get(f0, p) != v
    ensures exists ts: seq<seq<State>>, b: nat ::
      && Lives(plan, NO_FAULTS, f0, ts) && |ts| == 2 && RevertCall(plan, ts[1], 0, b)
      && ts[1][b].outcome == Success && Get(ts[1][b].files, p) == v && ts[1][b].files != f0
  {
    TornRuns.ForwardRun(plan, NO_FAULTS, f0, i + 1, true);
    var t: seq<State> :| Run(plan, NO_FAULTS, f0, t) && TornRuns.RanFirst(plan, t[|t| - 1], i + 1, true);
    var last := t[|t| - 1];
    var loaded := State(last.files, t[0].done, TornRuns.AsyncFlags(plan, true), Idle, NotCalled);
    assert t[0].done == TornRuns.FirstDone(plan, 0);
    EmptyRevert(plan, NO_FAULTS, f0, loaded);
    var t': seq<State>, b: nat :| Trace(plan, NO_FAULTS, t') && t'[0] == loaded && RevertCall(plan, t', 0, b)
      && t'[b].outcome == Success && t'[b].files == loaded.files;
    var ts := [t] + [t'];
    assert Crash(plan, last, loaded, t[0].done);
    assert ts[0] == t && ts[1] == t';
    forall k: nat ensures GoesOn(plan, NO_FAULTS, ts, k) {}
    WrittenAt(plan, f0, t, i, p);
  }

  lemma WrittenAt(plan: Plan, f0: Files, t: seq<State>, i: nat, p: Path)
    requires WellFormed(plan, f0) && i < |plan| && Hits(plan, i, p)
    requires Run(plan, NO_FAULTS, f0, t) && TornRuns.RanFirst(plan, t[|t| - 1], i + 1, true)
    ensures Get(t[|t| - 1].files, p) == Effect(plan[i].run, p).value
  {
    var s := t[|t| - 1];
    RunInvariant(plan, NO_FAULTS, f0, t, |t| - 1);
    assert AccurateAt(plan, NO_FAULTS, f0, s.files, s.done, p);
    assert s.done[i] && DoneHits(plan, s.done, i, p);
    assert !Excused(plan, false, s.done, p);
  }
}
