/** The update plan as a transition system. */
module PlanMachine {
  import opened Values
  import opened Store

  /** run and revert are a step's actions; content steps are the ones that may run concurrently. */
  datatype Step = Step(name: string, digest: string, run: seq<Op>, revert: seq<Op>, content: bool)

  type Plan = seq<Step>

  datatype Phase =
    | Idle
    | Active(back: bool, cursor: int, inflight: set<nat>, failed: bool)

  datatype Outcome = NotCalled | Success | Failure | Refused

  datatype State = State(files: Files, done: seq<bool>, async: seq<bool>, phase: Phase, outcome: Outcome)

  ghost predicate Hits(plan: Plan, i: nat, p: Path)
    requires i < |plan|
  {
    Effect(plan[i].run, p).Some?
  }

  ghost predicate Restores(plan: Plan, i: nat, p: Path)
    requires i < |plan|
  {
    Effect(plan[i].revert, p).Some?
  }

  /** i comes before j, and they are not two steps of the content group. */
  predicate Before(plan: Plan, i: nat, j: nat)
    requires i < |plan| && j < |plan|
  {
    i < j && !(plan[i].content && plan[j].content)
  }

  // ---------------------------------------------------------------- well-formed plans

  /** The plan starts and ends with a synchronous step. */
  ghost predicate Layout(plan: Plan) {
    && |plan| >= 2
    && !plan[0].content
    && !plan[|plan| - 1].content
    && (forall i, j, k :: 0 <= i < j < k < |plan| && plan[i].content && plan[k].content ==> plan[j].content)
  }

  ghost predicate DisjointTargets(plan: Plan) {
    forall i: nat, j: nat, p :: i < |plan| && j < |plan| && Hits(plan, i, p) && Hits(plan, j, p) ==> i == j
  }

  /** A step that does nothing forward; its revert removes a directory. */
  predicate Sweeps(plan: Plan, i: nat)
    requires i < |plan|
  {
    plan[i].run == [] && !plan[i].content
  }

  /** Reverting step i puts back what f0 has at the step's own targets, and at no path of an earlier step. */
  ghost predicate Undoes(plan: Plan, f0: Files, i: nat)
    requires i < |plan|
  {
    && |plan[i].revert| <= 1
    && (forall p :: Hits(plan, i, p) ==> Restores(plan, i, p))
    && (forall p :: Restores(plan, i, p) ==>
          && Effect(plan[i].revert, p).value == Get(f0, p)
          && (Hits(plan, i, p) || (Sweeps(plan, i) && forall j: nat :: j < i ==> !Hits(plan, j, p))))
  }

  ghost predicate WellFormed(plan: Plan, f0: Files) {
    && Layout(plan)
    && DisjointTargets(plan)
    && forall i: nat :: i < |plan| - 1 ==> Undoes(plan, f0, i)
  }

  // ---------------------------------------------------------------- transitions

  // Calls of Apply and Revert, goroutines that finish in any order, steps that fail at any time, and plans that
  // are saved and loaded between calls.

  predicate AllDone(done: seq<bool>) {
    forall i :: 0 <= i < |done| ==> done[i]
  }

  predicate NoneDone(done: seq<bool>) {
    forall i :: 0 <= i < |done| ==> !done[i]
  }

  function Start(plan: Plan, f0: Files): State {
    State(f0, seq(|plan|, _ => false), seq(|plan|, i requires 0 <= i < |plan| => plan[i].content), Idle, NotCalled)
  }

  predicate Sized(plan: Plan, s: State) {
    |s.done| == |plan| == |s.async|
  }

  predicate AtStep(plan: Plan, s: State) {
    Sized(plan, s) && s.phase.Active? && 0 <= s.phase.cursor < |plan|
  }

  function Move(ph: Phase): Phase
    requires ph.Active?
  {
    ph.(cursor := if ph.back then ph.cursor - 1 else ph.cursor + 1)
  }

  /** The effect of Run or Revert on step i; ok is false when the step returns an error. */
  ghost predicate Exec(plan: Plan, faults: Faults, back: bool, i: nat, ok: bool,
                       f: Files, done: seq<bool>, f': Files, done': seq<bool>)
    requires i < |plan| == |done|
  {
    var ops := if back then plan[i].revert else plan[i].run;
    if ok then
      f' == DoAll(ops, f) && done' == done[i := !back]
    else
      Fails(ops, f, f', if back then faults.tornRevert else faults.tornRun) && done' == done
  }

  ghost predicate Apply(s: State, s': State) {
    s.phase.Idle? && s' == s.(phase := Active(false, 0, {}, false))
  }

  ghost predicate Revert(plan: Plan, s: State, s': State) {
    && s.phase.Idle?
    && s' == if AllDone(s.done) then s.(outcome := Refused)
             else s.(phase := Active(true, |plan| - 1, {}, false))
  }

  /** Saving a plan and loading it again loses the mark of steps that may run concurrently. */
  ghost predicate Reload(plan: Plan, s: State, s': State) {
    s.phase.Idle? && s' == s.(async := seq(|plan|, _ => false))
  }

  ghost predicate Skip(plan: Plan, s: State, s': State) {
    && AtStep(plan, s)
    && s.done[s.phase.cursor] == !s.phase.back
    && s' == s.(phase := Move(s.phase))
  }

  ghost predicate Launch(plan: Plan, s: State, s': State) {
    && AtStep(plan, s)
    && s.done[s.phase.cursor] == s.phase.back
    && s.async[s.phase.cursor]
    && s' == s.(phase := Move(s.phase).(inflight := s.phase.inflight + {s.phase.cursor}))
  }

  ghost predicate Finish(plan: Plan, faults: Faults, s: State, s': State, i: nat, ok: bool) {
    && Sized(plan, s) && s.phase.Active? && i in s.phase.inflight && i < |plan|
    && Exec(plan, faults, s.phase.back, i, ok, s.files, s.done, s'.files, s'.done)
    && s' == s.(files := s'.files, done := s'.done,
                phase := s.phase.(inflight := s.phase.inflight - {i}, failed := s.phase.failed || !ok))
  }

  ghost predicate SyncStep(plan: Plan, faults: Faults, s: State, s': State, ok: bool) {
    && AtStep(plan, s)
    && s.done[s.phase.cursor] == s.phase.back
    && !s.async[s.phase.cursor]
    && s.phase.inflight == {} && !s.phase.failed
    && Exec(plan, faults, s.phase.back, s.phase.cursor, ok, s.files, s.done, s'.files, s'.done)
    && s' == if ok then s.(files := s'.files, done := s'.done, phase := Move(s.phase))
             else s.(files := s'.files, done := s'.done, phase := Idle, outcome := Failure)
  }

  /** The group of concurrent steps is waited for at a synchronous step and at the end. */
  ghost predicate Return(plan: Plan, s: State, s': State) {
    && Sized(plan, s) && s.phase.Active? && s.phase.inflight == {}
    && if s.phase.failed then
         (AtStep(plan, s) ==> s.done[s.phase.cursor] == s.phase.back && !s.async[s.phase.cursor])
         && s' == s.(phase := Idle, outcome := Failure)
       else !AtStep(plan, s) && s' == s.(phase := Idle, outcome := Success)
  }

  /** A transition inside a call of Apply or Revert. */
  ghost predicate Inner(plan: Plan, faults: Faults, s: State, s': State) {
    || Skip(plan, s, s')
    || Launch(plan, s, s')
    || (exists i, ok :: Finish(plan, faults, s, s', i, ok))
    || (exists ok :: SyncStep(plan, faults, s, s', ok))
    || Return(plan, s, s')
  }

  ghost predicate Next(plan: Plan, faults: Faults, s: State, s': State) {
    || Apply(s, s')
    || Revert(plan, s, s')
    || Reload(plan, s, s')
    || Inner(plan, faults, s, s')
  }

  ghost predicate Linked(plan: Plan, faults: Faults, t: seq<State>, i: nat) {
    i + 1 < |t| ==> Next(plan, faults, t[i], t[i + 1])
  }

  ghost predicate Trace(plan: Plan, faults: Faults, t: seq<State>) {
    |t| > 0 && forall i: nat :: Linked(plan, faults, t, i)
  }

  /** t is a run of the plan on an object whose files were f0. */
  ghost predicate Run(plan: Plan, faults: Faults, f0: Files, t: seq<State>) {
    Trace(plan, faults, t) && t[0] == Start(plan, f0)
  }

  /** No step has failed in the current call, or the last call returned nil. */
  predicate Unfailed(s: State) {
    if s.phase.Active? then !s.phase.failed else s.outcome == Success
  }

  // ---------------------------------------------------------------- shape of the completed set

  /** A completed step has every step before it complete, except its siblings in the content group. */
  ghost predicate Shape(plan: Plan, done: seq<bool>)
    requires |done| == |plan|
  {
    forall i: nat, j: nat :: i < |plan| && j < |plan| && Before(plan, i, j) && done[j] ==> done[i]
  }

  /** Steps behind the cursor are processed, in flight, or content steps that failed. */
  ghost predicate Behind(plan: Plan, s: State)
    requires Sized(plan, s) && s.phase.Active?
  {
    var Active(back, k, inflight, failed) := s.phase;
    && -1 <= k <= |plan|
    && (forall i :: i in inflight ==> i < |plan| && Passed(s.phase, i) && plan[i].content && s.done[i] == back)
    && (forall j: nat :: j < |plan| && Passed(s.phase, j) && s.done[j] == back ==>
          plan[j].content && (j in inflight || failed))
    && (failed ==> exists j: nat :: j < |plan| && Passed(s.phase, j) && j !in inflight && plan[j].content
                                    && s.done[j] == back)
  }

  predicate Passed(ph: Phase, j: nat)
    requires ph.Active?
  {
    if ph.back then j > ph.cursor else j < ph.cursor
  }

  ghost predicate Control(plan: Plan, s: State) {
    && Sized(plan, s)
    && Shape(plan, s.done)
    && (forall i :: 0 <= i < |plan| && s.async[i] ==> plan[i].content)
    && (s.phase.Active? ==> Behind(plan, s))
    && (s.phase.Active? && s.phase.back ==> |plan| > 0 && !s.done[|plan| - 1])
    && (s.phase.Active? ==> if s.phase.back then s.phase.cursor < |plan| else 0 <= s.phase.cursor)
  }

  /** What is known when step i is about to run or to be reverted. */
  ghost predicate Ready(plan: Plan, back: bool, done: seq<bool>, i: nat)
    requires |done| == |plan| && i < |plan|
  {
    && done[i] == back
    && if back then (forall j: nat :: j < |plan| && Before(plan, i, j) ==> !done[j])
       else (forall j: nat :: j < |plan| && Before(plan, j, i) ==> done[j])
  }

  lemma ReadyKeepsShape(plan: Plan, back: bool, done: seq<bool>, i: nat)
    requires |done| == |plan| && i < |plan|
    requires Shape(plan, done) && Ready(plan, back, done, i)
    ensures Shape(plan, done[i := !back])
  {
  }

  lemma ReadyInFlight(plan: Plan, s: State, i: nat)
    requires Control(plan, s) && s.phase.Active? && i in s.phase.inflight
    ensures i < |plan| && Ready(plan, s.phase.back, s.done, i)
  {
  }

  lemma ReadyAtCursor(plan: Plan, s: State)
    requires Control(plan, s) && AtStep(plan, s)
    requires s.done[s.phase.cursor] == s.phase.back && s.phase.inflight == {} && !s.phase.failed
    ensures Ready(plan, s.phase.back, s.done, s.phase.cursor)
  {
  }

  lemma SkipKeepsControl(plan: Plan, s: State, s': State)
    requires Layout(plan) && Control(plan, s) && Skip(plan, s, s')
    ensures Control(plan, s')
  {
    var k: nat := s.phase.cursor;
    if s.phase.failed {
      var j: nat :| j < |plan| && Passed(s.phase, j) && j !in s.phase.inflight && plan[j].content
          && s.done[j] == s.phase.back;
      assert Passed(s'.phase, j);
    }
  }

  lemma LaunchKeepsControl(plan: Plan, s: State, s': State)
    requires Layout(plan) && Control(plan, s) && Launch(plan, s, s')
    ensures Control(plan, s')
  {
    if s.phase.failed {
      var j: nat :| j < |plan| && Passed(s.phase, j) && j !in s.phase.inflight && plan[j].content
          && s.done[j] == s.phase.back;
      assert Passed(s'.phase, j);
    }
  }

  lemma FinishKeepsControl(plan: Plan, faults: Faults, s: State, s': State, i: nat, ok: bool)
    requires Layout(plan) && Control(plan, s) && Finish(plan, faults, s, s', i, ok)
    ensures Control(plan, s')
  {
    ReadyInFlight(plan, s, i);
    ReadyKeepsShape(plan, s.phase.back, s.done, i);
    if s.phase.failed {
      var j: nat :| j < |plan| && Passed(s.phase, j) && j !in s.phase.inflight && plan[j].content
          && s.done[j] == s.phase.back;
      assert Passed(s'.phase, j);
    } else if !ok {
      assert Passed(s'.phase, i);
    }
  }

  lemma SyncKeepsControl(plan: Plan, faults: Faults, s: State, s': State, ok: bool)
    requires Layout(plan) && Control(plan, s) && SyncStep(plan, faults, s, s', ok)
    ensures Control(plan, s')
  {
    ReadyAtCursor(plan, s);
    ReadyKeepsShape(plan, s.phase.back, s.done, s.phase.cursor);
  }

  lemma NextKeepsControl(plan: Plan, faults: Faults, s: State, s': State)
    requires Layout(plan) && Control(plan, s) && Next(plan, faults, s, s')
    ensures Control(plan, s')
  {
    if Skip(plan, s, s') {
      SkipKeepsControl(plan, s, s');
    } else if Launch(plan, s, s') {
      LaunchKeepsControl(plan, s, s');
    } else if i, ok :| Finish(plan, faults, s, s', i, ok) {
      FinishKeepsControl(plan, faults, s, s', i, ok);
    } else if ok :| SyncStep(plan, faults, s, s', ok) {
      SyncKeepsControl(plan, faults, s, s', ok);
    } else if Revert(plan, s, s') && !AllDone(s.done) {
      var i: nat :| i < |plan| && !s.done[i];
      assert i < |plan| - 1 ==> Before(plan, i, |plan| - 1);
    }
  }
}
