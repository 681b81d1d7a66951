/** Runs in which torn files survive a nil Revert or a nil Apply. */
module TornRuns {
  import opened Values
  import opened Store
  import opened PlanMachine
  import opened PlanFiles
  import opened PlanTheorems
  import UpdatePlans

  const TORN_RUN := Faults(true, false)
  const TORN_REVERT := Faults(false, true)

  // ---------------------------------------------------------------- runs up to a step

  /** After loading a saved plan no step may run concurrently; before, content steps may. */
  function AsyncFlags(plan: Plan, loaded: bool): seq<bool> {
    seq(|plan|, i requires 0 <= i < |plan| => !loaded && plan[i].content)
  }

  predicate Sequential(s: State) {
    forall i :: 0 <= i < |s.async| ==> !s.async[i]
  }

  function FirstDone(plan: Plan, k: nat): seq<bool> {
    seq(|plan|, i => i < k)
  }

  /** An Apply that has run the first k steps without a fault. */
  predicate RanFirst(plan: Plan, s: State, k: nat, loaded: bool) {
    s.async == AsyncFlags(plan, loaded) && s.done == FirstDone(plan, k) && s.phase == Active(false, k, {}, false)
  }

  lemma StartApply(plan: Plan, faults: Faults, f0: Files, loaded: bool)
    ensures exists t :: Run(plan, faults, f0, t) && RanFirst(plan, t[|t| - 1], 0, loaded)
  {
    var first := Start(plan, f0);
    assert first.done == FirstDone(plan, 0);
    var t := [first];
    if loaded {
      var reloaded := first.(async := seq(|plan|, _ => false));
      assert reloaded.async == AsyncFlags(plan, true);
      assert Reload(plan, first, reloaded);
      UpdatePlans.ExtendRun(plan, faults, f0, t, reloaded);
      t := t + [reloaded];
    } else {
      assert first.async == AsyncFlags(plan, false);
    }
    var s := t[|t| - 1];
    var s' := s.(phase := Active(false, 0, {}, false));
    assert Apply(s, s');
    UpdatePlans.ExtendRun(plan, faults, f0, t, s');
    assert RanFirst(plan, (t + [s'])[|t|], 0, loaded);
  }

  /** In an unloaded plan this takes Apply up to the first content step. */
  lemma {:induction false} ForwardRun(plan: Plan, faults: Faults, f0: Files, k: nat, loaded: bool)
    requires k <= |plan| && (!loaded ==> forall j :: 0 <= j < k ==> !plan[j].content)
    ensures exists t :: Run(plan, faults, f0, t) && RanFirst(plan, t[|t| - 1], k, loaded)
  {
    if k == 0 {
      StartApply(plan, faults, f0, loaded);
    } else {
      ForwardRun(plan, faults, f0, k - 1, loaded);
      var t: seq<State> :| Run(plan, faults, f0, t) && RanFirst(plan, t[|t| - 1], k - 1, loaded);
      var s := t[|t| - 1];
      var s' := s.(files := DoAll(plan[k - 1].run, s.files), done := s.done[k - 1 := true], phase := Move(s.phase));
      assert s'.done == FirstDone(plan, k);
      assert SyncStep(plan, faults, s, s', true);
      UpdatePlans.ExtendRun(plan, faults, f0, t, s');
      assert RanFirst(plan, (t + [s'])[|t|], k, loaded);
    }
  }

  /** f with v at p. */
  function Put(f: Files, p: Path, v: Option<Bytes>): (g: Files)
    ensures forall q :: Get(g, q) == if q == p then v else Get(f, q)
  {
    if v.Some? then f[p := v.value] else f - {p}
  }

  /** What a torn operation can leave at a path: a write anything, a removal nothing. */
  predicate CanLeave(op: Op, p: Path, v: Option<Bytes>) {
    Touches(op, p) && (op.Write? || v == None)
  }

  /** A step with one operation fails, and leaves v at p. */
  lemma TornFailure(op: Op, f: Files, p: Path, v: Option<Bytes>)
    requires CanLeave(op, p, v)
    ensures Fails([op], f, Put(f, p, v), true)
  {
    assert [op][..0] == [];
    assert FailsAt([op], 0, f, Put(f, p, v), true);
  }

  lemma CleanFailure(ops: seq<Op>, f: Files, torn: bool)
    requires ops != []
    ensures Fails(ops, f, f, torn)
  {
    assert ops[..0] == [];
    assert FailsAt(ops, 0, f, f, torn);
  }

  /** In its last two states t returns with the files f, the first k steps complete, and calls Revert. */
  ghost predicate CallsRevert(plan: Plan, t: seq<State>, k: nat, f: Files) {
    && |t| >= 2 && Revert(plan, t[|t| - 2], t[|t| - 1])
    && var a, r := t[|t| - 2], t[|t| - 1];
       && a.phase.Idle? && a.files == f == r.files && a.done == FirstDone(plan, k) == r.done
       && r.phase == Active(true, |plan| - 1, {}, false) && |r.async| == |plan| && Sequential(r)
  }

  /** The step after the first k fails; what it leaves is f. Then Revert is called. */
  lemma FailNext(plan: Plan, faults: Faults, f0: Files, t: seq<State>, k: nat, f: Files)
    requires Run(plan, faults, f0, t) && RanFirst(plan, t[|t| - 1], k, true) && k < |plan|
    requires Fails(plan[k].run, t[|t| - 1].files, f, faults.tornRun)
    ensures exists t' :: Run(plan, faults, f0, t') && CallsRevert(plan, t', k, f)
  {
    var s := t[|t| - 1];
    var a := s.(files := f, phase := Idle, outcome := Failure);
    assert SyncStep(plan, faults, s, a, false);
    UpdatePlans.ExtendRun(plan, faults, f0, t, a);
    var r := a.(phase := Active(true, |plan| - 1, {}, false));
    assert !AllDone(a.done) by { assert !a.done[k]; }
    assert Revert(plan, a, r);
    UpdatePlans.ExtendRun(plan, faults, f0, t + [a], r);
    var t' := t + [a] + [r];
    assert t'[|t'| - 2] == a && t'[|t'| - 1] == r;
    assert CallsRevert(plan, t', k, f);
  }

  // ---------------------------------------------------------------- runs to the end of a call

  /** t ends inside a sequential call that began in t[a], with step k to be looked at next. */
  ghost predicate InCall(plan: Plan, t: seq<State>, a: nat, k: int, back: bool) {
    && a + 1 < |t| && Sized(plan, t[|t| - 1]) && Sequential(t[|t| - 1])
    && t[|t| - 1].phase == Active(back, k, {}, false)
    && forall m :: a < m < |t| ==> t[m].phase.Active? && t[m].phase.back == back
  }

  /** t' continues t to the end of the call, which returns nil. */
  ghost predicate EndsCall(t: seq<State>, t': seq<State>, a: nat, back: bool) {
    && t <= t' && |t| < |t'| && t'[|t'| - 1].phase.Idle? && t'[|t'| - 1].outcome == Success
    && forall m :: a < m < |t'| - 1 ==> t'[m].phase.Active? && t'[m].phase.back == back
  }

  /** From any state of a sequential call there is a run in which all remaining steps succeed. */
  lemma {:induction false} RunToEnd(plan: Plan, faults: Faults, t: seq<State>, a: nat, k: int, back: bool)
    requires Trace(plan, faults, t) && -1 <= k <= |plan| && InCall(plan, t, a, k, back)
    requires if back then k < |plan| else 0 <= k
    ensures exists t' :: Trace(plan, faults, t') && EndsCall(t, t', a, back)
    decreases if back then k + 1 else |plan| - k
  {
    var s := t[|t| - 1];
    if !(0 <= k < |plan|) {
      var s' := s.(phase := Idle, outcome := Success);
      assert Return(plan, s, s');
      UpdatePlans.ExtendTrace(plan, faults, t, s');
      assert EndsCall(t, t + [s'], a, back);
    } else {
      var ops := if back then plan[k].revert else plan[k].run;
      var s' := if s.done[k] == back
                then s.(files := DoAll(ops, s.files), done := s.done[k := !back], phase := Move(s.phase))
                else s.(phase := Move(s.phase));
      assert if s.done[k] == back then SyncStep(plan, faults, s, s', true) else Skip(plan, s, s');
      UpdatePlans.ExtendTrace(plan, faults, t, s');
      RunToEnd(plan, faults, t + [s'], a, s'.phase.cursor, back);
      var t': seq<State> :| Trace(plan, faults, t') && EndsCall(t + [s'], t', a, back);
      assert EndsCall(t, t', a, back);
    }
  }

  // ---------------------------------------------------------------- torn runs

  /** Some run tears the file of step i, and then calls Revert. */
  lemma TornThenRevert(plan: Plan, f0: Files, i: nat, p: Path, data: Bytes, left: Option<Bytes>)
    requires i < |plan| && plan[i].run == [Write(p, data)]
    ensures exists t, f :: Run(plan, TORN_RUN, f0, t) && CallsRevert(plan, t, i, f) && Get(f, p) == left
  {
    ForwardRun(plan, TORN_RUN, f0, i, true);
    var t: seq<State> :| Run(plan, TORN_RUN, f0, t) && RanFirst(plan, t[|t| - 1], i, true);
    var f := Put(t[|t| - 1].files, p, left);
    TornFailure(Write(p, data), t[|t| - 1].files, p, left);
    FailNext(plan, TORN_RUN, f0, t, i, f);
  }

  /** Once Revert has returned nil, what was left of step i is still there. */
  lemma LeftAfterRevert(plan: Plan, faults: Faults, f0: Files, t: seq<State>, t': seq<State>, i: nat, f: Files, p: Path)
    requires WellFormed(plan, f0) && CallsRevert(plan, t, i, f) && i < |plan| && Hits(plan, i, p)
             && !InSweptDir(plan, p)
    requires Run(plan, faults, f0, t') && EndsCall(t, t', |t| - 2, true)
    ensures RevertCall(plan, t', |t| - 2, |t'| - 1) && Get(t'[|t'| - 1].files, p) == Get(f, p)
  {
    var a, b := |t| - 2, |t'| - 1;
    assert t'[a] == t[a] && t'[a + 1] == t[a + 1];
    assert RevertCall(plan, t', a, b);
    RevertedFileAt(plan, faults, f0, t', a, b, p);
    assert !t'[a].done[i];
  }

  /**
   For every step that writes one file outside the swept directories, and everything that a torn write can leave,
   there is a run in which that step fails, Revert then returns nil, and the torn file is still there.
   */
  lemma TornRunSpoilsRevert(plan: Plan, f0: Files, i: nat, p: Path, data: Bytes, left: Option<Bytes>)
    requires WellFormed(plan, f0) && i < |plan| && plan[i].run == [Write(p, data)]
    requires !InSweptDir(plan, p) && Get(f0, p) != left
    ensures exists t: seq<State>, a: nat, b: nat ::
      && Run(plan, TORN_RUN, f0, t) && RevertCall(plan, t, a, b)
      && t[b].outcome == Success && t[b].files != f0 && Get(t[b].files, p) == left
  {
    TornThenRevert(plan, f0, i, p, data, left);
    var t: seq<State>, f :| Run(plan, TORN_RUN, f0, t) && CallsRevert(plan, t, i, f) && Get(f, p) == left;
    RunToEnd(plan, TORN_RUN, t, |t| - 2, |plan| - 1, true);
    var t': seq<State> :| Trace(plan, TORN_RUN, t') && EndsCall(t, t', |t| - 2, true);
    assert Effect(plan[i].run, p).Some?;
    LeftAfterRevert(plan, TORN_RUN, f0, t, t', i, f, p);
  }

  // ---------------------------------------------------------------- torn reverts

  /** t is inside a Revert that began in t[a], at step i; the steps up to i are complete, and the files are f. */
  ghost predicate AtRevert(plan: Plan, t: seq<State>, a: nat, k: int, i: nat, f: Files) {
    InCall(plan, t, a, k, true) && t[|t| - 1].done == FirstDone(plan, i + 1) && t[|t| - 1].files == f
  }

  /** From the start of a Revert, the steps that are not complete are skipped. */
  lemma {:induction false} SkipDown(plan: Plan, faults: Faults, f0: Files, t: seq<State>, a: nat, k: int, i: nat,
                                    f: Files)
    requires Run(plan, faults, f0, t) && i <= k < |plan| && AtRevert(plan, t, a, k, i, f)
    ensures exists t' :: Run(plan, faults, f0, t') && AtRevert(plan, t', a, i, i, f)
    decreases k
  {
    if k > i {
      var s := t[|t| - 1];
      var s' := s.(phase := Move(s.phase));
      assert Skip(plan, s, s');
      UpdatePlans.ExtendRun(plan, faults, f0, t, s');
      assert AtRevert(plan, t + [s'], a, k - 1, i, f);
      SkipDown(plan, faults, f0, t + [s'], a, k - 1, i, f);
    }
  }

  /** In its last two states t has returned with left at p and the steps up to i complete, and calls Apply. */
  ghost predicate CallsApply(plan: Plan, t: seq<State>, i: nat, p: Path, left: Option<Bytes>) {
    && |t| >= 2 && InCall(plan, t, |t| - 2, 0, false)
    && var s := t[|t| - 2];
       s.phase.Idle? && Apply(s, t[|t| - 1]) && s.done == FirstDone(plan, i + 1) && Get(s.files, p) == left
  }

  /** The revert of step i tears p; then Apply is called. The step still counts as complete. */
  lemma TearRevert(plan: Plan, f0: Files, t: seq<State>, a: nat, i: nat, f: Files, p: Path, left: Option<Bytes>)
    requires Run(plan, TORN_REVERT, f0, t) && i < |plan| && AtRevert(plan, t, a, i, i, f)
    requires |plan[i].revert| == 1 && CanLeave(plan[i].revert[0], p, left)
    ensures exists t' :: Run(plan, TORN_REVERT, f0, t') && CallsApply(plan, t', i, p, left)
  {
    var s := t[|t| - 1];
    TornFailure(plan[i].revert[0], s.files, p, left);
    assert plan[i].revert == [plan[i].revert[0]];
    var idle := s.(files := Put(s.files, p, left), phase := Idle, outcome := Failure);
    assert SyncStep(plan, TORN_REVERT, s, idle, false);
    UpdatePlans.ExtendRun(plan, TORN_REVERT, f0, t, idle);
    var again := idle.(phase := Active(false, 0, {}, false));
    assert Apply(idle, again);
    UpdatePlans.ExtendRun(plan, TORN_REVERT, f0, t + [idle], again);
    var t' := t + [idle] + [again];
    assert t'[|t'| - 2] == idle && t'[|t'| - 1] == again;
    assert CallsApply(plan, t', i, p, left);
  }

  /** Some run reaches the second Apply, after a torn revert of step i. */
  lemma TornThenApply(plan: Plan, f0: Files, i: nat, p: Path, left: Option<Bytes>)
    requires i + 1 < |plan| && plan[i + 1].run != [] && |plan[i].revert| == 1 && CanLeave(plan[i].revert[0], p, left)
    ensures exists t :: Run(plan, TORN_REVERT, f0, t) && CallsApply(plan, t, i, p, left)
  {
    ForwardRun(plan, TORN_REVERT, f0, i + 1, true);
    var t0: seq<State> :| Run(plan, TORN_REVERT, f0, t0) && RanFirst(plan, t0[|t0| - 1], i + 1, true);
    var f := t0[|t0| - 1].files;
    CleanFailure(plan[i + 1].run, f, false);
    FailNext(plan, TORN_REVERT, f0, t0, i + 1, f);
    var t1: seq<State> :| Run(plan, TORN_REVERT, f0, t1) && CallsRevert(plan, t1, i + 1, f);
    var a := |t1| - 2;
    assert AtRevert(plan, t1, a, |plan| - 1, i, f);
    SkipDown(plan, TORN_REVERT, f0, t1, a, |plan| - 1, i, f);
    var t2: seq<State> :| Run(plan, TORN_REVERT, f0, t2) && AtRevert(plan, t2, a, i, i, f);
    TearRevert(plan, f0, t2, a, i, f, p, left);
  }

  /**
   For every step that writes one file, is not the last, and is followed by a step that can fail, there is a
   run in which reverting that step fails and tears the file, or, if the revert is a removal, removes it, and the
   next Apply returns nil and leaves it so: the step still counts as complete, so it is not run again.
   */
  lemma TornRevertSpoilsApply(plan: Plan, f0: Files, i: nat, p: Path, data: Bytes, left: Option<Bytes>)
    requires WellFormed(plan, f0) && i + 1 < |plan| && plan[i].run == [Write(p, data)] && plan[i + 1].run != []
    requires left != Some(data) && forall op :: op in plan[i].revert && !op.Write? ==> left == None
    ensures exists t: seq<State>, a: nat, b: nat ::
      && Run(plan, TORN_REVERT, f0, t) && ApplyCall(plan, t, a, b)
      && t[b].outcome == Success && t[b].files != FullRun(plan, f0) && Get(t[b].files, p) == left
  {
    assert Effect(plan[i].run, p) == Some(Some(data));
    RevertTouches(plan, f0, i, p);
    TornThenApply(plan, f0, i, p, left);
    var t3: seq<State> :| Run(plan, TORN_REVERT, f0, t3) && CallsApply(plan, t3, i, p, left);
    var a := |t3| - 2;
    RunToEnd(plan, TORN_REVERT, t3, a, 0, false);
    var t: seq<State> :| Trace(plan, TORN_REVERT, t) && EndsCall(t3, t, a, false);
    var b := |t| - 1;
    assert t[a] == t3[a] && t[a + 1] == t3[a + 1];
    assert ApplyCall(plan, t, a, b);
    KeptAt(plan, TORN_REVERT, f0, t, a, b, i, p);
  }

  lemma RevertTouches(plan: Plan, f0: Files, i: nat, p: Path)
    requires WellFormed(plan, f0) && i < |plan| - 1 && Hits(plan, i, p)
    ensures |plan[i].revert| == 1 && Touches(plan[i].revert[0], p)
  {
    assert Undoes(plan, f0, i) && Restores(plan, i, p);
    var revert := plan[i].revert;
    assert |revert| == 1 && revert[..|revert| - 1] == [];
    assert Effect(revert[..|revert| - 1], p) == None;
  }

  /** A nil Apply does not repair the target of a step that counts as complete. */
  lemma KeptAt(plan: Plan, faults: Faults, f0: Files, t: seq<State>, a: nat, b: nat, i: nat, p: Path)
    requires WellFormed(plan, f0) && Run(plan, faults, f0, t) && ApplyCall(plan, t, a, b) && t[b].outcome == Success
    requires i < |plan| && |t[a].done| == |plan| && t[a].done[i] && Hits(plan, i, p)
    ensures Get(t[b].files, p) == Get(t[a].files, p)
    ensures Get(FullRun(plan, f0), p) == Effect(plan[i].run, p).value
  {
    RunInvariant(plan, faults, f0, t, 0);
    CallSteps(plan, faults, t, a, b, false);
    ApplyCallAt(plan, faults, t, a, b, b);
    assert AppliedAt(plan, t[a], t[b].files, t[b].done, i, p);
    FullRunAt(plan, f0, i, p);
  }
}
