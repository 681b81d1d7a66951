/** What the files of an object are in every state of an update plan. */
module PlanFiles {
  import opened Values
  import opened Store
  import opened PlanMachine

  // ---------------------------------------------------------------- one uninterrupted run

  /** The files after running the first k steps in order, without any fault. */
  function RunFirst(plan: Plan, f0: Files, k: nat): Files
    requires k <= |plan|
  {
    if k == 0 then f0 else DoAll(plan[k - 1].run, RunFirst(plan, f0, k - 1))
  }

  function FullRun(plan: Plan, f0: Files): Files {
    RunFirst(plan, f0, |plan|)
  }

  // ---------------------------------------------------------------- the expected files, path by path

  ghost predicate DoneHits(plan: Plan, done: seq<bool>, i: nat, p: Path)
    requires |done| == |plan|
  {
    i < |plan| && done[i] && Hits(plan, i, p)
  }

  /** What p holds when exactly the completed steps have taken effect. */
  ghost function Expected(plan: Plan, f0: Files, done: seq<bool>, p: Path): Option<Bytes>
    requires |done| == |plan|
  {
    if i: nat :| DoneHits(plan, done, i, p) then Effect(plan[i].run, p).value else Get(f0, p)
  }

  lemma ExpectedMiss(plan: Plan, f0: Files, done: seq<bool>, p: Path)
    requires |done| == |plan| && forall i: nat :: !DoneHits(plan, done, i, p)
    ensures Expected(plan, f0, done, p) == Get(f0, p)
  {
  }

  lemma ExpectedSame(plan: Plan, f0: Files, done: seq<bool>, i: nat, b: bool, p: Path)
    requires |done| == |plan| && DisjointTargets(plan) && i < |plan| && !Hits(plan, i, p)
    ensures Expected(plan, f0, done[i := b], p) == Expected(plan, f0, done, p)
  {
    var done' := done[i := b];
    if j: nat :| DoneHits(plan, done, j, p) {
      assert DoneHits(plan, done', j, p);
    } else {
      forall j: nat ensures !DoneHits(plan, done', j, p) {
        assert !DoneHits(plan, done, j, p);
      }
    }
  }

  lemma {:induction false} RunFirstAt(plan: Plan, f0: Files, k: nat, p: Path)
    requires k <= |plan| && DisjointTargets(plan)
    ensures Get(RunFirst(plan, f0, k), p) == Expected(plan, f0, seq(|plan|, i => i < k), p)
  {
    var done := seq(|plan|, i => i < k);
    if k == 0 {
      ExpectedMiss(plan, f0, done, p);
    } else {
      var before := seq(|plan|, i => i < k - 1);
      RunFirstAt(plan, f0, k - 1, p);
      DoAllAt(plan[k - 1].run, RunFirst(plan, f0, k - 1), p);
      if Hits(plan, k - 1, p) {
        assert DoneHits(plan, done, k - 1, p);
      } else {
        assert done == before[k - 1 := true];
        ExpectedSame(plan, f0, before, k - 1, true, p);
      }
    }
  }

  // ---------------------------------------------------------------- the file invariant

  /** A failed run of step i may leave anything at the targets of i. */
  ghost predicate Loose(plan: Plan, torn: bool, i: nat)
    requires i < |plan|
  {
    torn || |plan[i].run| > 1
  }

  ghost predicate Excused(plan: Plan, torn: bool, done: seq<bool>, p: Path)
    requires |done| == |plan|
  {
    exists i: nat :: i < |plan| && !done[i] && Loose(plan, torn, i) && Hits(plan, i, p)
  }

  /** Except at targets of incomplete loose steps, the files are those of the completed steps. */
  ghost predicate Accurate(plan: Plan, torn: bool, f0: Files, f: Files, done: seq<bool>)
    requires |done| == |plan|
  {
    forall p :: Excused(plan, torn, done, p) || Get(f, p) == Expected(plan, f0, done, p)
  }

  /** A revert that is still to come restores p; before that, an earlier attempt at it may have torn p. */
  ghost predicate Covered(plan: Plan, done: seq<bool>, p: Path)
    requires |done| == |plan|
  {
    exists i: nat :: i < |plan| - 1 && done[i] && Restores(plan, i, p)
  }

  /** Accurate at one path, also when reverts tear files. */
  ghost predicate AccurateAt(plan: Plan, faults: Faults, f0: Files, f: Files, done: seq<bool>, p: Path)
    requires |done| == |plan|
  {
    || (faults.tornRevert && Covered(plan, done, p))
    || Excused(plan, faults.tornRun, done, p)
    || Get(f, p) == Expected(plan, f0, done, p)
  }

  lemma RunAt(plan: Plan, faults: Faults, f0: Files, i: nat, ok: bool,
              f: Files, done: seq<bool>, f': Files, done': seq<bool>, p: Path)
    requires WellFormed(plan, f0) && |done| == |plan| && i < |plan|
    requires Ready(plan, false, done, i) && AccurateAt(plan, faults, f0, f, done, p)
    requires Exec(plan, faults, false, i, ok, f, done, f', done')
    ensures AccurateAt(plan, faults, f0, f', done', p)
  {
    DoAllAt(plan[i].run, f, p);
    if Covered(plan, done, p) {
      var j: nat :| j < |plan| - 1 && done[j] && Restores(plan, j, p);
      assert done'[j];
    }
    if Hits(plan, i, p) {
      if ok {
        assert DoneHits(plan, done', i, p);
      } else if !Loose(plan, faults.tornRun, i) {
        AtomicFailure(plan[i].run, f, f');
      }
    } else {
      if !ok { FailureIsLocal(plan[i].run, f, f', faults.tornRun, p); }
      ExpectedSame(plan, f0, done, i, true, p);
      if Excused(plan, faults.tornRun, done, p) {
        var j: nat :| j < |plan| && !done[j] && Loose(plan, faults.tornRun, j) && Hits(plan, j, p);
        assert j != i;
      }
    }
  }

  /** When step i is reverted, no other completed step has a target among the paths it restores. */
  lemma RestoredIsFree(plan: Plan, f0: Files, done: seq<bool>, i: nat, j: nat, p: Path)
    requires WellFormed(plan, f0) && |done| == |plan| && i < |plan| - 1 && j < |plan| && i != j
    requires Ready(plan, true, done, i) && Restores(plan, i, p)
    ensures !(done[j] && Hits(plan, j, p))
  {
    assert Undoes(plan, f0, i);
    assert Sweeps(plan, i) && i < j ==> Before(plan, i, j);
  }

  lemma RevertAt(plan: Plan, faults: Faults, f0: Files, i: nat, ok: bool,
                 f: Files, done: seq<bool>, f': Files, done': seq<bool>, p: Path)
    requires WellFormed(plan, f0) && |done| == |plan| && i < |plan| - 1
    requires Ready(plan, true, done, i) && AccurateAt(plan, faults, f0, f, done, p)
    requires Exec(plan, faults, true, i, ok, f, done, f', done')
    ensures AccurateAt(plan, faults, f0, f', done', p)
  {
    assert Undoes(plan, f0, i);
    DoAllAt(plan[i].revert, f, p);
    if Restores(plan, i, p) {
      if ok {
        forall j: nat ensures !DoneHits(plan, done', j, p) {
          if j < |plan| && j != i { RestoredIsFree(plan, f0, done, i, j, p); }
        }
        ExpectedMiss(plan, f0, done', p);
      } else if !faults.tornRevert {
        AtomicFailure(plan[i].revert, f, f');
      }
    } else {
      if !ok { FailureIsLocal(plan[i].revert, f, f', faults.tornRevert, p); }
      OthersStay(plan, faults, f0, done, i, p);
    }
  }

  /** Step i, which does not restore p, becomes incomplete. */
  lemma OthersStay(plan: Plan, faults: Faults, f0: Files, done: seq<bool>, i: nat, p: Path)
    requires WellFormed(plan, f0) && |done| == |plan| && i < |plan| - 1 && !Restores(plan, i, p)
    ensures Covered(plan, done, p) ==> Covered(plan, done[i := false], p)
    ensures Excused(plan, faults.tornRun, done, p) ==> Excused(plan, faults.tornRun, done[i := false], p)
    ensures Expected(plan, f0, done[i := false], p) == Expected(plan, f0, done, p)
  {
    assert Undoes(plan, f0, i) && !Hits(plan, i, p);
    ExpectedSame(plan, f0, done, i, false, p);
    if Covered(plan, done, p) {
      var j: nat :| j < |plan| - 1 && done[j] && Restores(plan, j, p);
      assert done[i := false][j];
    }
    if Excused(plan, faults.tornRun, done, p) {
      var j: nat :| j < |plan| && !done[j] && Loose(plan, faults.tornRun, j) && Hits(plan, j, p);
      assert !done[i := false][j];
    }
  }

  // ---------------------------------------------------------------- swept directories, and what is beyond reach

  /** p is in a directory that some step's revert removes. */
  ghost predicate InSweptDir(plan: Plan, p: Path) {
    exists i: nat :: i < |plan| - 1 && Sweeps(plan, i) && Restores(plan, i, p)
  }

  /** i is the first step whose revert removes a directory that p is in. */
  ghost predicate FirstSweep(plan: Plan, i: nat, p: Path) {
    && i < |plan| - 1 && Sweeps(plan, i) && Restores(plan, i, p)
    && forall j: nat :: j < i && Sweeps(plan, j) ==> !Restores(plan, j, p)
  }

  lemma {:induction false} FirstSweeper(plan: Plan, i: nat, p: Path)
    requires i < |plan| - 1 && Sweeps(plan, i) && Restores(plan, i, p)
    ensures exists first: nat :: FirstSweep(plan, first, p)
  {
    if j: nat :| j < i && Sweeps(plan, j) && Restores(plan, j, p) {
      FirstSweeper(plan, j, p);
    } else {
      assert FirstSweep(plan, i, p);
    }
  }

  /** While the step that first sweeps p is incomplete, p is as it was in f0. */
  ghost predicate SweptAt(plan: Plan, f0: Files, i: nat, f: Files, done: seq<bool>, p: Path)
    requires |done| == |plan|
  {
    FirstSweep(plan, i, p) && !done[i] ==> Get(f, p) == Get(f0, p)
  }

  ghost predicate IsHit(plan: Plan, p: Path) {
    exists i: nat :: i < |plan| && Hits(plan, i, p)
  }

  /** A path that is no target, and in no swept directory, is as it was in f0. */
  ghost predicate UntouchedAt(plan: Plan, f0: Files, f: Files, p: Path) {
    IsHit(plan, p) || InSweptDir(plan, p) || Get(f, p) == Get(f0, p)
  }

  lemma ExecKeepsSwept(plan: Plan, faults: Faults, f0: Files, i: nat, back: bool, k: nat, ok: bool,
                       f: Files, done: seq<bool>, f': Files, done': seq<bool>, p: Path)
    requires WellFormed(plan, f0) && |done| == |plan|
    requires k < |plan| && (back ==> k < |plan| - 1) && Ready(plan, back, done, k) && Shape(plan, done)
    requires Exec(plan, faults, back, k, ok, f, done, f', done')
    requires SweptAt(plan, f0, i, f, done, p)
    ensures SweptAt(plan, f0, i, f', done', p)
  {
    if FirstSweep(plan, i, p) && !done'[i] {
      assert Undoes(plan, f0, i);
      assert i < k ==> Before(plan, i, k);
      assert k <= i;
      assert k < i ==> !Hits(plan, k, p);
      DoAllAt(if back then plan[k].revert else plan[k].run, f, p);
      if back {
        assert Undoes(plan, f0, k);
        if !ok { FailureIsLocal(plan[k].revert, f, f', faults.tornRevert, p); }
      } else if !ok {
        FailureIsLocal(plan[k].run, f, f', faults.tornRun, p);
      }
    }
  }

  lemma ExecKeepsUntouched(plan: Plan, faults: Faults, f0: Files, back: bool, k: nat, ok: bool,
                           f: Files, done: seq<bool>, f': Files, done': seq<bool>, p: Path)
    requires WellFormed(plan, f0) && |done| == |plan| && k < |plan| && (back ==> k < |plan| - 1)
    requires Exec(plan, faults, back, k, ok, f, done, f', done')
    requires UntouchedAt(plan, f0, f, p)
    ensures UntouchedAt(plan, f0, f', p)
  {
    if !IsHit(plan, p) && !InSweptDir(plan, p) {
      assert !Hits(plan, k, p);
      DoAllAt(if back then plan[k].revert else plan[k].run, f, p);
      if back {
        assert Undoes(plan, f0, k) && !Restores(plan, k, p);
        if !ok { FailureIsLocal(plan[k].revert, f, f', faults.tornRevert, p); }
      } else if !ok {
        FailureIsLocal(plan[k].run, f, f', faults.tornRun, p);
      }
    }
  }

  // ---------------------------------------------------------------- the invariant of every state

  ghost predicate Invariant(plan: Plan, faults: Faults, f0: Files, s: State) {
    && Control(plan, s)
    && (forall i: nat, p :: SweptAt(plan, f0, i, s.files, s.done, p))
    && (forall p :: UntouchedAt(plan, f0, s.files, p))
    && (forall p :: AccurateAt(plan, faults, f0, s.files, s.done, p))
  }

  /** A transition either leaves files and flags alone or executes one step that is ready for it. */
  lemma NextIsExec(plan: Plan, faults: Faults, s: State, s': State) returns (i: nat, ok: bool)
    requires Layout(plan) && Control(plan, s) && Next(plan, faults, s, s')
    ensures || (s'.files == s.files && s'.done == s.done)
            || (&& s.phase.Active? && i < |plan| && (s.phase.back ==> i < |plan| - 1)
                && Ready(plan, s.phase.back, s.done, i)
                && Exec(plan, faults, s.phase.back, i, ok, s.files, s.done, s'.files, s'.done))
    ensures s.phase.Active? && Unfailed(s') ==> Unfailed(s) && ok
  {
    i, ok := 0, true;
    if j, b :| Finish(plan, faults, s, s', j, b) {
      i, ok := j, b;
      ReadyInFlight(plan, s, i);
    } else if b :| SyncStep(plan, faults, s, s', b) {
      i, ok := s.phase.cursor, b;
      ReadyAtCursor(plan, s);
    }
  }

  lemma NextKeepsInvariant(plan: Plan, faults: Faults, f0: Files, s: State, s': State)
    requires WellFormed(plan, f0) && Invariant(plan, faults, f0, s) && Next(plan, faults, s, s')
    ensures Invariant(plan, faults, f0, s')
  {
    NextKeepsControl(plan, faults, s, s');
    var i, ok := NextIsExec(plan, faults, s, s');
    if !(s'.files == s.files && s'.done == s.done) {
      var back := s.phase.back;
      forall j: nat, p ensures SweptAt(plan, f0, j, s'.files, s'.done, p) {
        ExecKeepsSwept(plan, faults, f0, j, back, i, ok, s.files, s.done, s'.files, s'.done, p);
      }
      forall p ensures UntouchedAt(plan, f0, s'.files, p) {
        ExecKeepsUntouched(plan, faults, f0, back, i, ok, s.files, s.done, s'.files, s'.done, p);
      }
      forall p ensures AccurateAt(plan, faults, f0, s'.files, s'.done, p) {
        if back {
          RevertAt(plan, faults, f0, i, ok, s.files, s.done, s'.files, s'.done, p);
        } else {
          RunAt(plan, faults, f0, i, ok, s.files, s.done, s'.files, s'.done, p);
        }
      }
    }
  }

  lemma StartInvariant(plan: Plan, faults: Faults, f0: Files)
    ensures Invariant(plan, faults, f0, Start(plan, f0))
  {
    var s := Start(plan, f0);
    forall p ensures Get(s.files, p) == Expected(plan, f0, s.done, p) {
      ExpectedMiss(plan, f0, s.done, p);
    }
  }

  /** Every state of every run has the invariant. */
  lemma {:induction false} RunInvariant(plan: Plan, faults: Faults, f0: Files, t: seq<State>, i: nat)
    requires WellFormed(plan, f0) && Run(plan, faults, f0, t) && i < |t|
    ensures Invariant(plan, faults, f0, t[i])
  {
    if i == 0 {
      StartInvariant(plan, faults, f0);
    } else {
      RunInvariant(plan, faults, f0, t, i - 1);
      assert Linked(plan, faults, t, i - 1);
      NextKeepsInvariant(plan, faults, f0, t[i - 1], t[i]);
    }
  }
}
