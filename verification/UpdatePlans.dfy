/** The update plan as an object: what its methods do is a run. */
module UpdatePlans {
  import opened Values
  import opened Store
  import opened PlanMachine
  import opened PlanFiles
  import opened PlanTheorems

  /** An operation that storage was asked for, and whether it succeeded. */
  datatype Performed = Performed(op: Op, ok: bool)

  /** The storage of one object. */
  class ObjectStore {
    var files: Files
    ghost var log: seq<Performed>  // all operations, in the order in which they were performed

    constructor (files: Files)
      ensures this.files == files && log == []
    {
      this.files, log := files, [];
    }

    /**
     An operation may fail; if mayTear, a failing write leaves anything at its path, a removal removes any of its
     paths.
     */
    method Perform(op: Op, mayTear: bool) returns (ok: bool)
      modifies this
      ensures ok ==> files == Do(op, old(files))
      ensures !ok ==> if mayTear then MayLeave(op, old(files), files) else files == old(files)
      ensures log == old(log) + [Performed(op, ok)]
    {
      ok := *;
      log := log + [Performed(op, ok)];
      if ok {
        files := Do(op, files);
      } else if mayTear {
        var torn: set<Path>, data: Option<Bytes> := *, *;
        if op.Write? && data.Some? {
          files := files[op.path := data.value];
        } else {
          files := map p | p in files && !(Touches(op, p) && p in torn) :: files[p];
        }
      }
    }

    /** The operations of one action, up to the first that fails. */
    method PerformAll(ops: seq<Op>, mayTear: bool) returns (ok: bool)
      modifies this
      ensures ok ==> files == DoAll(ops, old(files))
      ensures !ok ==> Fails(ops, old(files), files, mayTear)
      ensures Asked(ops, ok, old(log), log)
    {
      for k := 0 to |ops|
        invariant files == DoAll(ops[..k], old(files))
        invariant log == old(log) + Succeeded(ops[..k])
      {
        assert ops[..k + 1][..k] == ops[..k];
        ok := Perform(ops[k], mayTear);
        if !ok {
          assert FailsAt(ops, k, old(files), files, mayTear);
          return;
        }
        assert Succeeded(ops[..k + 1]) == Succeeded(ops[..k]) + [Performed(ops[k], true)];
      }
      assert ops[..|ops|] == ops;
      return true;
    }
  }

  function Succeeded(ops: seq<Op>): seq<Performed> {
    seq(|ops|, i requires 0 <= i < |ops| => Performed(ops[i], true))
  }

  /** Storage was asked for all of the operations, or for those up to one that failed. */
  ghost predicate Asked(ops: seq<Op>, ok: bool, before: seq<Performed>, after: seq<Performed>) {
    if ok then after == before + Succeeded(ops)
    else exists k: nat :: k < |ops| && after == before + Succeeded(ops[..k]) + [Performed(ops[k], false)]
  }

  /** No operation has failed since. */
  ghost predicate NoFailure(before: seq<Performed>, after: seq<Performed>) {
    forall i :: |before| <= i < |after| ==> after[i].ok
  }

  /** What was known to have failed before, or has failed since, is known now; nothing else is. */
  ghost predicate Noticed(before: seq<Performed>, after: seq<Performed>, failed: bool, failed': bool) {
    before <= after && (failed' <==> failed || !NoFailure(before, after))
  }

  lemma AskedIsNoticed(ops: seq<Op>, ok: bool, before: seq<Performed>, after: seq<Performed>)
    requires Asked(ops, ok, before, after)
    ensures Noticed(before, after, false, !ok)
  {
    if !ok { assert !after[|after| - 1].ok; }
  }

  lemma NoticedThen(a: seq<Performed>, b: seq<Performed>, c: seq<Performed>, f: bool, g: bool, h: bool)
    requires Noticed(a, b, f, g) && Noticed(b, c, g, h)
    ensures Noticed(a, c, f, h)
  {
    if i :| |a| <= i < |b| && !b[i].ok { assert !c[i].ok; }
    if i :| |b| <= i < |c| && !c[i].ok { assert !NoFailure(a, c); }
  }

  lemma ExtendTrace(plan: Plan, faults: Faults, t: seq<State>, s: State)
    requires Trace(plan, faults, t) && Next(plan, faults, t[|t| - 1], s)
    ensures Trace(plan, faults, t + [s])
  {
    var t' := t + [s];
    forall i: nat ensures Linked(plan, faults, t', i) {
      assert Linked(plan, faults, t, i);
    }
  }

  lemma ExtendRun(plan: Plan, faults: Faults, f0: Files, t: seq<State>, s: State)
    requires Run(plan, faults, f0, t) && Next(plan, faults, t[|t| - 1], s)
    ensures Run(plan, faults, f0, t + [s])
  {
    ExtendTrace(plan, faults, t, s);
  }

  class UpdatePlan {
    const plan: Plan
    const faults: Faults
    const store: ObjectStore
    var completed: seq<bool>
    var async: seq<bool>
    var goLimit: nat
    const cpus: nat  // the limit on goroutines when none is set

    ghost const f0: Files           // the object's files when the plan was made
    ghost var outcome: Outcome      // how the last call ended
    ghost var history: seq<State>   // every state since then

    ghost predicate At(phase: Phase)
      reads this, store
    {
      && Run(plan, faults, f0, history)
      && history[|history| - 1] == State(store.files, completed, async, phase, outcome)
      && WellFormed(plan, f0)
      && |completed| == |plan| == |async|
      && cpus > 0
    }

    ghost predicate Valid()
      reads this, store
    {
      At(Idle)
    }

    constructor (plan: Plan, faults: Faults, store: ObjectStore, cpus: nat)
      requires WellFormed(plan, store.files) && cpus > 0
      ensures Valid() && this.plan == plan && this.faults == faults && this.store == store
      ensures f0 == store.files && history == [Start(plan, f0)]
    {
      this.plan, this.faults, this.store, this.cpus := plan, faults, store, cpus;
      completed := seq(|plan|, _ => false);
      async := seq(|plan|, i requires 0 <= i < |plan| => plan[i].content);
      goLimit := 0;
      f0 := store.files;
      outcome := NotCalled;
      history := [Start(plan, store.files)];
    }

    /** Notes the state that the last transition has led to. */
    ghost method Record(phase: Phase)
      requires Run(plan, faults, f0, history) && WellFormed(plan, f0) && cpus > 0
      requires Next(plan, faults, history[|history| - 1], State(store.files, completed, async, phase, outcome))
      modifies this`history
      ensures At(phase)
      ensures history == old(history) + [State(store.files, completed, async, phase, outcome)]
    {
      var s := State(store.files, completed, async, phase, outcome);
      ExtendRun(plan, faults, f0, history, s);
      history := history + [s];
      RunInvariant(plan, faults, f0, history, |history| - 1);
    }

    /** Runs or reverts step i. */
    method Execute(i: nat, back: bool) returns (ok: bool)
      requires i < |plan| == |completed|
      modifies this`completed, store
      ensures Exec(plan, faults, back, i, ok, old(store.files), old(completed), store.files, completed)
      ensures Asked(if back then plan[i].revert else plan[i].run, ok, old(store.log), store.log)
    {
      if back {
        ok := store.PerformAll(plan[i].revert, faults.tornRevert);
      } else {
        ok := store.PerformAll(plan[i].run, faults.tornRun);
      }
      if ok { completed := completed[i := !back]; }
    }

    /** One of the goroutines in flight finishes. */
    method FinishOne(back: bool, cursor: int, inflight: set<nat>, failed: bool) returns (rest: set<nat>, failed': bool)
      requires At(Active(back, cursor, inflight, failed)) && inflight != {}
      modifies this`completed, this`history, store
      ensures At(Active(back, cursor, rest, failed'))
      ensures |rest| < |inflight| && rest <= inflight && Later(old(history), history, back)
      ensures Noticed(old(store.log), store.log, failed, failed')
      ensures SameOutside(inflight, old(completed), completed)
    {
      RunInvariant(plan, faults, f0, history, |history| - 1);
      var i :| i in inflight;
      ghost var s := history[|history| - 1];
      var ok := Execute(i, back);
      AskedIsNoticed(if back then plan[i].revert else plan[i].run, ok, old(store.log), store.log);
      rest, failed' := inflight - {i}, failed || !ok;
      Finished(s, i, ok);
      assert |inflight| == |rest| + 1;
    }

    ghost method Finished(s: State, i: nat, ok: bool)
      requires Run(plan, faults, f0, history) && WellFormed(plan, f0) && cpus > 0
      requires history[|history| - 1] == s && s.phase.Active? && i in s.phase.inflight && Sized(plan, s) && i < |plan|
      requires Exec(plan, faults, s.phase.back, i, ok, s.files, s.done, store.files, completed)
      requires s.async == async && s.outcome == outcome
      modifies this`history
      ensures At(s.phase.(inflight := s.phase.inflight - {i}, failed := s.phase.failed || !ok))
      ensures Later(old(history), history, s.phase.back)
    {
      var phase := s.phase.(inflight := s.phase.inflight - {i}, failed := s.phase.failed || !ok);
      assert Finish(plan, faults, s, State(store.files, completed, async, phase, outcome), i, ok);
      Record(phase);
    }

    /** Waits until at most n goroutines are in flight. */
    method WaitFor(n: nat, back: bool, cursor: int, inflight: set<nat>, failed: bool)
      returns (rest: set<nat>, failed': bool)
      requires At(Active(back, cursor, inflight, failed))
      modifies this`completed, this`history, store
      ensures At(Active(back, cursor, rest, failed'))
      ensures |rest| <= n && rest <= inflight && Later(old(history), history, back)
      ensures Noticed(old(store.log), store.log, failed, failed')
      ensures SameOutside(inflight, old(completed), completed)
    {
      rest, failed' := inflight, failed;
      while |rest| > n
        invariant At(Active(back, cursor, rest, failed'))
        invariant rest <= inflight && Later(old(history), history, back)
        invariant Noticed(old(store.log), store.log, failed, failed')
        invariant SameOutside(inflight, old(completed), completed)
        decreases |rest|
      {
        ghost var was, before := failed', store.log;
        rest, failed' := FinishOne(back, cursor, rest, failed');
        NoticedThen(old(store.log), before, store.log, failed, was, failed');
      }
    }

    /** The step at the cursor has nothing to do. */
    ghost method Skipped(back: bool, cursor: nat, inflight: set<nat>, failed: bool)
      requires At(Active(back, cursor, inflight, failed)) && cursor < |plan| && completed[cursor] != back
      modifies this`history
      ensures At(Active(back, if back then cursor - 1 else cursor + 1, inflight, failed))
      ensures Later(old(history), history, back)
    {
      ghost var s := history[|history| - 1];
      assert Skip(plan, s, s.(phase := Move(s.phase)));
      Record(Active(back, if back then cursor - 1 else cursor + 1, inflight, failed));
    }

    /** Starts the step at the cursor in the background. */
    ghost method Launched(back: bool, cursor: nat, inflight: set<nat>, failed: bool)
      requires At(Active(back, cursor, inflight, failed))
      requires cursor < |plan| && completed[cursor] == back && async[cursor]
      modifies this`history
      ensures At(Active(back, if back then cursor - 1 else cursor + 1, inflight + {cursor}, failed))
      ensures Later(old(history), history, back)
    {
      ghost var s := history[|history| - 1];
      assert Launch(plan, s, s.(phase := Move(s.phase).(inflight := s.phase.inflight + {s.phase.cursor})));
      Record(Active(back, if back then cursor - 1 else cursor + 1, inflight + {cursor}, failed));
    }

    /**
     Waits until fewer than gos goroutines are in flight, and starts the step at the cursor; others finish whenever
     they do.
     */
    method GoStep(back: bool, cursor: nat, inflight: set<nat>, failed: bool, gos: nat)
      returns (flight: set<nat>, failed': bool)
      requires At(Active(back, cursor, inflight, failed))
      requires cursor < |plan| && completed[cursor] == back && async[cursor] && gos > 0
      modifies this`completed, this`history, store
      ensures At(Active(back, if back then cursor - 1 else cursor + 1, flight, failed'))
      ensures |flight| <= gos && Later(old(history), history, back)
      ensures Noticed(old(store.log), store.log, failed, failed')
    {
      NotInFlight(plan, faults, f0, history);
      var most: nat := *;
      if most >= gos { most := gos - 1; }
      flight, failed' := WaitFor(most, back, cursor, inflight, failed);
      Launched(back, cursor, flight, failed');
      flight := flight + {cursor};
    }

    /** Executes the step at the cursor, when none is in flight. */
    method ExecuteSync(back: bool, cursor: nat) returns (ok: bool)
      requires At(Active(back, cursor, {}, false))
      requires cursor < |plan| && completed[cursor] == back && !async[cursor]
      modifies this`completed, this`history, this`outcome, store
      ensures ok ==> At(Active(back, if back then cursor - 1 else cursor + 1, {}, false))
      ensures ok ==> Later(old(history), history, back)
      ensures !ok ==> Valid() && outcome == Failure && history[..|history| - 1] == old(history)
      ensures Noticed(old(store.log), store.log, false, !ok)
    {
      ghost var s := history[|history| - 1];
      ok := Execute(cursor, back);
      AskedIsNoticed(if back then plan[cursor].revert else plan[cursor].run, ok, old(store.log), store.log);
      if !ok {
        outcome := Failure;
        assert SyncStep(plan, faults, s, State(store.files, completed, async, Idle, outcome), false);
        Record(Idle);
      } else {
        var c := if back then cursor - 1 else cursor + 1;
        assert SyncStep(plan, faults, s, State(store.files, completed, async, Active(back, c, {}, false), outcome),
                        true);
        Record(Active(back, c, {}, false));
      }
    }

    /** Waits for the steps in flight; if none of them failed, executes the step at the cursor. */
    method SyncNext(back: bool, cursor: nat, inflight: set<nat>, failed: bool) returns (ok: bool)
      requires At(Active(back, cursor, inflight, failed))
      requires cursor < |plan| && completed[cursor] == back && !async[cursor]
      modifies this`completed, this`history, this`outcome, store
      ensures ok ==> At(Active(back, if back then cursor - 1 else cursor + 1, {}, false))
      ensures ok ==> Later(old(history), history, back)
      ensures !ok ==> Valid() && outcome == Failure
      ensures !ok ==> |old(history)| < |history| && Later(old(history), history[..|history| - 1], back)
      ensures Noticed(old(store.log), store.log, failed, !ok)
    {
      NotInFlight(plan, faults, f0, history);
      var flight, failed' := WaitFor(0, back, cursor, inflight, failed);
      assert flight == {};
      if failed' {
        outcome := Failure;
        Record(Idle);
        return false;
      }
      ghost var before := store.log;
      ok := ExecuteSync(back, cursor);
      NoticedThen(old(store.log), before, store.log, failed, false, !ok);
    }

    /** The steps to run, or to revert, one after the other; content steps in the background. */
    method RunSteps(back: bool) returns (ok: bool)
      requires At(Active(back, if back then |plan| - 1 else 0, {}, false))
      modifies this`completed, this`history, this`outcome, store
      ensures Valid() && outcome == (if ok then Success else Failure)
      ensures |old(history)| < |history| && Later(old(history), history[..|history| - 1], back)
      ensures Noticed(old(store.log), store.log, false, !ok)
    {
      var cursor := if back then |plan| - 1 else 0;
      var inflight: set<nat>, failed := {}, false;
      while 0 <= cursor < |plan|
        invariant At(Active(back, cursor, inflight, failed))
        invariant Later(old(history), history, back)
        invariant Noticed(old(store.log), store.log, false, failed)
        decreases if back then cursor + 1 else |plan| - cursor
      {
        if completed[cursor] != back {
          Skipped(back, cursor, inflight, failed);
          cursor := if back then cursor - 1 else cursor + 1;
        } else {
          ghost var was, before := failed, store.log;
          if async[cursor] {
            inflight, failed := GoStep(back, cursor, inflight, failed, if goLimit < 1 then cpus else goLimit);
            NoticedThen(old(store.log), before, store.log, false, was, failed);
          } else {
            ok := SyncNext(back, cursor, inflight, failed);
            NoticedThen(old(store.log), before, store.log, false, was, !ok);
            if !ok { return; }
            inflight, failed := {}, false;
          }
          cursor := if back then cursor - 1 else cursor + 1;
        }
      }
      ghost var was, before := failed, store.log;
      ok := WaitAll(back, cursor, inflight, failed);
      NoticedThen(old(store.log), before, store.log, false, was, !ok);
    }

    /** After the last step: waits for the steps in flight. */
    method WaitAll(back: bool, cursor: int, inflight: set<nat>, failed: bool) returns (ok: bool)
      requires At(Active(back, cursor, inflight, failed)) && !(0 <= cursor < |plan|)
      modifies this`completed, this`history, this`outcome, store
      ensures Valid() && outcome == (if ok then Success else Failure)
      ensures |old(history)| < |history| && Later(old(history), history[..|history| - 1], back)
      ensures Noticed(old(store.log), store.log, failed, !ok)
    {
      var flight, failed' := WaitFor(0, back, cursor, inflight, failed);
      assert flight == {};
      outcome := if failed' then Failure else Success;
      Record(Idle);
      return !failed';
    }

    /**
     It fails if and only if a storage operation that it performs fails. When it returns nil, all steps are completed.
     The object's files are then those of one uninterrupted run exactly when no completed step's target, and nothing
     else, was wrong before; in particular they are when no revert has torn files, whatever failed, tore files in a
     run, or was reverted before.
     */
    method Apply() returns (ok: bool)
      requires Valid()
      modifies this`completed, this`history, this`outcome, store
      ensures Valid() && outcome == (if ok then Success else Failure) && old(history) <= history
      ensures Noticed(old(store.log), store.log, false, !ok)
      ensures ok ==> AllDone(completed)
      ensures ok ==> (store.files == FullRun(plan, f0) <==> Accurate(plan, true, f0, old(store.files), old(completed)))
      ensures ok && !faults.tornRevert ==> store.files == FullRun(plan, f0)
    {
      ghost var a: nat := |history| - 1;
      ghost var t := history;
      Record(Active(false, 0, {}, false));
      ok := RunSteps(false);
      if ok {
        ghost var b: nat := |history| - 1;
        assert history[a] == t[a] && history[a + 1].phase.Active?;
        assert ApplyCall(plan, history, a, b);
        RunInvariant(plan, faults, f0, history, 0);
        ApplyOutcome(plan, faults, f0, history, a, b);
        if !faults.tornRevert { ApplyConverges(plan, faults, f0, history, a, b); }
      }
    }

    /**
     Refused when all steps are completed; otherwise it fails if and only if a storage operation that it performs
     fails. When it returns nil, no step is completed, and the object's files are
     the original ones exactly when no failed step had left anything behind; so they are with all-or-nothing
     operations.
     */
    method Revert() returns (ok: bool)
      requires Valid()
      modifies this`completed, this`history, this`outcome, store
      ensures Valid() && old(history) <= history
      ensures AllDone(old(completed)) ==>
                !ok && outcome == Refused && store.files == old(store.files) && completed == old(completed)
      ensures if AllDone(old(completed)) then store.log == old(store.log)
              else Noticed(old(store.log), store.log, false, !ok) && outcome == (if ok then Success else Failure)
      ensures ok ==> NoneDone(completed)
      ensures ok ==>
        (store.files == f0 <==> NoResidue(plan, f0, old(State(store.files, completed, async, Idle, outcome))))
      ensures ok && faults == Faults(false, false) && Atomic(plan) ==> store.files == f0
    {
      ghost var a: nat := |history| - 1;
      if AllDone(completed) {
        outcome := Refused;
        Record(Idle);
        return false;
      }
      ghost var t := history;
      Record(Active(true, |plan| - 1, {}, false));
      ok := RunSteps(true);
      if ok {
        ghost var b: nat := |history| - 1;
        assert history[a] == t[a] && history[a + 1].phase.Active?;
        assert RevertCall(plan, history, a, b);
        RunInvariant(plan, faults, f0, history, 0);
        NilCall(plan, faults, history, a, b, true);
        RevertRestores(plan, faults, f0, history, a, b);
        if faults == Faults(false, false) && Atomic(plan) { AtomicRevertRestores(plan, f0, history, a, b); }
      }
    }

    /** Saving the plan and loading it again: completed steps stay completed, but nothing runs concurrently. */
    method Reload()
      requires Valid()
      modifies this`async, this`history
      ensures Valid() && old(history) <= history
      ensures forall i :: 0 <= i < |async| ==> !async[i]
    {
      async := seq(|plan|, _ => false);
      Record(Idle);
    }
  }

  /** The step at the cursor is not in flight. */
  lemma NotInFlight(plan: Plan, faults: Faults, f0: Files, t: seq<State>)
    requires WellFormed(plan, f0) && Run(plan, faults, f0, t) && t[|t| - 1].phase.Active?
    ensures t[|t| - 1].phase.cursor !in t[|t| - 1].phase.inflight
  {
    RunInvariant(plan, faults, f0, t, |t| - 1);
  }

  /** Only the flags of these steps may have changed. */
  ghost predicate SameOutside(steps: set<nat>, before: seq<bool>, after: seq<bool>) {
    |after| == |before| && forall j: nat :: j < |before| && j !in steps ==> after[j] == before[j]
  }

  /** after continues before, inside one call that runs steps in the given direction. */
  ghost predicate Later(before: seq<State>, after: seq<State>, back: bool) {
    before <= after && forall k :: |before| <= k < |after| ==> after[k].phase.Active? && after[k].phase.back == back
  }
}
