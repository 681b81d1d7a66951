/** The fan-out/fan-in pipeline as a transition system. */
module Pipeline {
  // A feeder offers tasks on an unbuffered channel to workers, which send to a bounded result channel;
  // one goroutine closes that, and the consumer receives from it.

  datatype Result<T, U> = Result(input: T, output: U)

  /**
   Feeding offers the first of the tasks; Stopped has ended, with these not sent, and closes its channel as it ends.
   */
  datatype Feeder<T> = Feeding(rest: seq<T>) | Stopped(unsent: seq<T>)

  datatype Worker<T, U> =
    | Ready
    | Got(task: T)
    | Working(task: T)
    | Sending(result: Result<T, U>)
    | Exited

  /** The goroutine that waits for all workers, and then closes the result channel. */
  datatype Closer = Waiting | Done

  datatype Consumer<T, U> = Receiving | Yielding(result: Result<T, U>) | Draining | Returned

  datatype State<T, U> = State(
    feeder: Feeder<T>,
    feedClosed: bool,
    closer: Closer,
    workers: seq<Worker<T, U>>,
    queue: seq<Result<T, U>>,
    queueClosed: bool,
    cancelled: bool,
    consumer: Consumer<T, U>,
    stopped: bool,  // yield has returned false
    yielded: seq<Result<T, U>>,
    drained: seq<Result<T, U>>,
    skipped: seq<T>)

  datatype Action =
    | Send(w: nat) | FeedEnd | FeedCancel
    | Check(w: nat) | Work(w: nat) | Put(w: nat) | Exit(w: nat)
    | CloseQueue
    | Receive | YieldReturns(more: bool) | ReceiveEnd | Drain | Return

  function Start<T, U>(tasks: seq<T>, numWorkers: nat): State<T, U> {
    State(Feeding(tasks), false, Waiting, seq(numWorkers, _ => Ready), [], false, false, Receiving, false, [], [], [])
  }

  predicate Enabled<T(!new), U(!new)>(s: State<T, U>, a: Action) {
    match a
    case Send(w) => w < |s.workers| && s.workers[w].Ready? && s.feeder.Feeding? && s.feeder.rest != []
    case FeedEnd => s.feeder.Feeding? && s.feeder.rest == []
    case FeedCancel => s.feeder.Feeding? && s.feeder.rest != [] && s.cancelled
    case Check(w) => w < |s.workers| && s.workers[w].Got?
    case Work(w) => w < |s.workers| && s.workers[w].Working?
    case Put(w) => w < |s.workers| && s.workers[w].Sending? && |s.queue| < |s.workers|
    case Exit(w) => w < |s.workers| && s.workers[w].Ready? && s.feedClosed
    case CloseQueue => s.closer.Waiting? && forall w :: 0 <= w < |s.workers| ==> s.workers[w].Exited?
    case Receive => s.consumer.Receiving? && s.queue != []
    case YieldReturns(_) => s.consumer.Yielding?
    case ReceiveEnd => s.consumer.Receiving? && s.queue == [] && s.queueClosed
    case Drain => s.consumer.Draining? && s.queue != []
    case Return => s.consumer.Draining? && s.queue == [] && s.queueClosed
  }

  function Step<T(!new), U(!new)>(f: T -> U, s: State<T, U>, a: Action): State<T, U>
    requires Enabled(s, a)
  {
    match a
    case Send(w) => s.(feeder := Feeding(s.feeder.rest[1..]), workers := s.workers[w := Got(s.feeder.rest[0])])
    case FeedEnd => s.(feeder := Stopped([]), feedClosed := true)
    case FeedCancel => s.(feeder := Stopped(s.feeder.rest), feedClosed := true)
    case Check(w) =>
      var t := s.workers[w].task;
      if s.cancelled then s.(workers := s.workers[w := Ready], skipped := s.skipped + [t])
      else s.(workers := s.workers[w := Working(t)])
    case Work(w) =>
      var t := s.workers[w].task;
      s.(workers := s.workers[w := Sending(Result(t, f(t)))])
    case Put(w) => s.(workers := s.workers[w := Ready], queue := s.queue + [s.workers[w].result])
    case Exit(w) => s.(workers := s.workers[w := Exited])
    case CloseQueue => s.(queueClosed := true, closer := Done)
    case Receive => s.(consumer := Yielding(s.queue[0]), queue := s.queue[1..])
    case YieldReturns(more) =>
      var t := s.(yielded := s.yielded + [s.consumer.result]);
      if more then t.(consumer := Receiving) else t.(consumer := Draining, cancelled := true, stopped := true)
    case ReceiveEnd => s.(consumer := Draining, cancelled := true)
    case Drain => s.(queue := s.queue[1..], drained := s.drained + [s.queue[0]])
    case Return => s.(consumer := Returned)
  }

  /** actions can be taken one after the other from s. */
  predicate CanRun<T(!new), U(!new)>(f: T -> U, s: State<T, U>, actions: seq<Action>)
    decreases |actions|
  {
    actions == [] || (Enabled(s, actions[0]) && CanRun(f, Step(f, s, actions[0]), actions[1..]))
  }

  function Run<T(!new), U(!new)>(f: T -> U, s: State<T, U>, actions: seq<Action>): State<T, U>
    requires CanRun(f, s, actions)
    decreases |actions|
  {
    if actions == [] then s else Run(f, Step(f, s, actions[0]), actions[1..])
  }

  // ---------------------------------------------------------------- where the tasks are

  ghost function One<T>(x: T, t: T): nat {
    if x == t then 1 else 0
  }

  /** How often t is the input of a result in rs. */
  ghost function CountInputs<T, U>(rs: seq<Result<T, U>>, t: T): nat {
    if rs == [] then 0 else CountInputs(rs[..|rs| - 1], t) + One(rs[|rs| - 1].input, t)
  }

  ghost function Held<T, U>(w: Worker<T, U>, t: T): nat {
    match w
    case Got(x) => One(x, t)
    case Working(x) => One(x, t)
    case Sending(r) => One(r.input, t)
    case _ => 0
  }

  ghost function CountHeld<T, U>(ws: seq<Worker<T, U>>, t: T): nat {
    if ws == [] then 0 else CountHeld(ws[..|ws| - 1], t) + Held(ws[|ws| - 1], t)
  }

  function Unsent<T>(f: Feeder<T>): seq<T> {
    match f
    case Feeding(rest) => rest
    case Stopped(unsent) => unsent
  }

  /** How often t is anywhere in the pipeline: unsent, with a worker, queued, yielded, skipped or drained. */
  ghost function Everywhere<T(!new), U(!new)>(s: State<T, U>, t: T): nat {
    multiset(Unsent(s.feeder))[t] + CountHeld(s.workers, t) + CountInputs(s.queue, t)
    + (if s.consumer.Yielding? then One(s.consumer.result.input, t) else 0)
    + CountInputs(s.yielded, t) + CountInputs(s.drained, t) + multiset(s.skipped)[t]
  }

  lemma {:induction false} InputsTail<T, U>(rs: seq<Result<T, U>>, t: T)
    requires rs != []
    ensures CountInputs(rs, t) == One(rs[0].input, t) + CountInputs(rs[1..], t)
  {
    var n := |rs| - 1;
    if n > 0 {
      InputsTail(rs[..n], t);
      assert rs[1..][..n - 1] == rs[..n][1..];
    }
  }

  lemma InputsAppend<T, U>(rs: seq<Result<T, U>>, r: Result<T, U>, t: T)
    ensures CountInputs(rs + [r], t) == CountInputs(rs, t) + One(r.input, t)
  {
    assert (rs + [r])[..|rs|] == rs;
  }

  lemma {:induction false} HeldUpdate<T, U>(ws: seq<Worker<T, U>>, w: nat, x: Worker<T, U>, t: T)
    requires w < |ws|
    ensures CountHeld(ws[w := x], t) + Held(ws[w], t) == CountHeld(ws, t) + Held(x, t)
  {
    var n := |ws| - 1;
    if w < n {
      assert ws[w := x][..n] == ws[..n][w := x];
      HeldUpdate(ws[..n], w, x, t);
    } else {
      assert ws[w := x][..n] == ws[..n];
    }
  }

  lemma {:induction false} NoWorkHeld<T, U>(ws: seq<Worker<T, U>>, t: T)
    requires forall w :: 0 <= w < |ws| ==> ws[w].Ready? || ws[w].Exited?
    ensures CountHeld(ws, t) == 0
  {
    if ws != [] { NoWorkHeld(ws[..|ws| - 1], t); }
  }

  // ---------------------------------------------------------------- the invariant

  ghost predicate Correct<T(!new), U(!new)>(f: T -> U, rs: seq<Result<T, U>>) {
    forall i :: 0 <= i < |rs| ==> rs[i].output == f(rs[i].input)
  }

  ghost predicate Protocol<T(!new), U(!new)>(f: T -> U, s: State<T, U>) {
    && 0 < |s.workers| && |s.queue| <= |s.workers|
    && (s.queueClosed ==> forall w :: 0 <= w < |s.workers| ==> s.workers[w].Exited?)
    && (s.queueClosed <==> s.closer.Done?)
    && (s.feedClosed <==> s.feeder.Stopped?)
    && (forall w :: 0 <= w < |s.workers| && s.workers[w].Exited? ==> s.feedClosed)
    && (s.cancelled <==> s.consumer.Draining? || s.consumer.Returned?)
    && (s.stopped ==> s.cancelled)
    && (s.cancelled && !s.stopped ==> s.queueClosed && s.queue == [])
    && (s.consumer.Returned? ==> s.queueClosed && s.queue == [])
    && (!s.stopped ==> s.drained == [] && s.skipped == [] && (s.feeder.Stopped? ==> s.feeder.unsent == []))
  }

  ghost predicate Outputs<T(!new), U(!new)>(f: T -> U, s: State<T, U>) {
    && Correct(f, s.queue) && Correct(f, s.yielded) && Correct(f, s.drained)
    && (s.consumer.Yielding? ==> s.consumer.result.output == f(s.consumer.result.input))
    && (forall w :: 0 <= w < |s.workers| && s.workers[w].Sending? ==>
          s.workers[w].result.output == f(s.workers[w].result.input))
  }

  ghost predicate Invariant<T(!new), U(!new)>(f: T -> U, tasks: seq<T>, s: State<T, U>) {
    Protocol(f, s) && Outputs(f, s) && forall t :: Everywhere(s, t) == multiset(tasks)[t]
  }

  lemma StartInvariant<T(!new), U(!new)>(f: T -> U, tasks: seq<T>, numWorkers: nat)
    requires numWorkers > 0
    ensures Invariant(f, tasks, Start<T, U>(tasks, numWorkers))
  {
    forall t: T ensures CountHeld(Start<T, U>(tasks, numWorkers).workers, t) == 0 {
      NoWorkHeld(Start<T, U>(tasks, numWorkers).workers, t);
    }
  }

  lemma FeederKeepsProtocol<T(!new), U(!new)>(f: T -> U, s: State<T, U>, a: Action)
    requires Protocol(f, s) && Enabled(s, a) && (a.Send? || a.FeedEnd? || a.FeedCancel?)
    ensures Protocol(f, Step(f, s, a))
  {
    assert s.workers[0].Exited? ==> s.feedClosed;
  }

  lemma WorkerKeepsProtocol<T(!new), U(!new)>(f: T -> U, s: State<T, U>, a: Action)
    requires Protocol(f, s) && Enabled(s, a) && (a.Check? || a.Work? || a.Put? || a.Exit?)
    ensures Protocol(f, Step(f, s, a))
  {
  }

  /** The closer, and the consumer. */
  lemma OthersKeepProtocol<T(!new), U(!new)>(f: T -> U, s: State<T, U>, a: Action)
    requires Protocol(f, s) && Enabled(s, a) && !ByWorker(a) && !a.FeedEnd? && !a.FeedCancel?
    ensures Protocol(f, Step(f, s, a))
  {
    assert s.queueClosed ==> s.workers[0].Exited?;
  }

  lemma WorkerKeepsOutputs<T(!new), U(!new)>(f: T -> U, s: State<T, U>, a: Action)
    requires Outputs(f, s) && Enabled(s, a) && ByWorker(a)
    ensures Outputs(f, Step(f, s, a))
  {
  }

  lemma StepKeepsOutputs<T(!new), U(!new)>(f: T -> U, s: State<T, U>, a: Action)
    requires Outputs(f, s) && Enabled(s, a)
    ensures Outputs(f, Step(f, s, a))
  {
    if ByWorker(a) { WorkerKeepsOutputs(f, s, a); }
  }

  lemma StepKeepsProtocol<T(!new), U(!new)>(f: T -> U, s: State<T, U>, a: Action)
    requires Protocol(f, s) && Outputs(f, s) && Enabled(s, a)
    ensures Protocol(f, Step(f, s, a)) && Outputs(f, Step(f, s, a))
  {
    StepKeepsOutputs(f, s, a);
    if a.Send? || a.FeedEnd? || a.FeedCancel? {
      FeederKeepsProtocol(f, s, a);
    } else if ByWorker(a) {
      WorkerKeepsProtocol(f, s, a);
    } else {
      OthersKeepProtocol(f, s, a);
    }
  }

  lemma SendConserves<T(!new), U(!new)>(f: T -> U, s: State<T, U>, w: nat, t: T)
    requires Enabled(s, Send(w))
    ensures Everywhere(Step(f, s, Send(w)), t) == Everywhere(s, t)
  {
    HeldUpdate(s.workers, w, Step(f, s, Send(w)).workers[w], t);
    assert s.feeder.rest == [s.feeder.rest[0]] + s.feeder.rest[1..];
  }

  lemma CheckConserves<T(!new), U(!new)>(f: T -> U, s: State<T, U>, w: nat, t: T)
    requires Enabled(s, Check(w))
    ensures Everywhere(Step(f, s, Check(w)), t) == Everywhere(s, t)
  {
    HeldUpdate(s.workers, w, Step(f, s, Check(w)).workers[w], t);
  }

  lemma PutConserves<T(!new), U(!new)>(f: T -> U, s: State<T, U>, w: nat, t: T)
    requires Enabled(s, Put(w))
    ensures Everywhere(Step(f, s, Put(w)), t) == Everywhere(s, t)
  {
    HeldUpdate(s.workers, w, Ready, t);
    InputsAppend(s.queue, s.workers[w].result, t);
  }

  /** Working, and exiting, leave the worker with what it holds. */
  lemma WorkConserves<T(!new), U(!new)>(f: T -> U, s: State<T, U>, a: Action, t: T)
    requires Enabled(s, a) && (a.Work? || a.Exit?)
    ensures Everywhere(Step(f, s, a), t) == Everywhere(s, t)
  {
    HeldUpdate(s.workers, a.w, Step(f, s, a).workers[a.w], t);
  }

  lemma ReceiveConserves<T(!new), U(!new)>(f: T -> U, s: State<T, U>, t: T)
    requires Enabled(s, Receive)
    ensures Everywhere(Step(f, s, Receive), t) == Everywhere(s, t)
  {
    InputsTail(s.queue, t);
  }

  lemma YieldConserves<T(!new), U(!new)>(f: T -> U, s: State<T, U>, more: bool, t: T)
    requires Enabled(s, YieldReturns(more))
    ensures Everywhere(Step(f, s, YieldReturns(more)), t) == Everywhere(s, t)
  {
    InputsAppend(s.yielded, s.consumer.result, t);
  }

  lemma DrainConserves<T(!new), U(!new)>(f: T -> U, s: State<T, U>, t: T)
    requires Enabled(s, Drain)
    ensures Everywhere(Step(f, s, Drain), t) == Everywhere(s, t)
  {
    InputsTail(s.queue, t);
    InputsAppend(s.drained, s.queue[0], t);
  }

  predicate ByWorker(a: Action) {
    a.Send? || a.Check? || a.Work? || a.Put? || a.Exit?
  }

  /** Conservation: no step loses, duplicates or invents a task. */
  lemma StepConserves<T(!new), U(!new)>(f: T -> U, s: State<T, U>, a: Action, t: T)
    requires Enabled(s, a)
    ensures Everywhere(Step(f, s, a), t) == Everywhere(s, t)
  {
    if a.Send? {
      SendConserves(f, s, a.w, t);
    } else if a.Check? {
      CheckConserves(f, s, a.w, t);
    } else if a.Put? {
      PutConserves(f, s, a.w, t);
    } else if a.Work? || a.Exit? {
      WorkConserves(f, s, a, t);
    } else if a.Receive? {
      ReceiveConserves(f, s, t);
    } else if a.YieldReturns? {
      YieldConserves(f, s, a.more, t);
    } else if a.Drain? {
      DrainConserves(f, s, t);
    }
  }

  lemma StepKeepsInvariant<T(!new), U(!new)>(f: T -> U, tasks: seq<T>, s: State<T, U>, a: Action)
    requires Invariant(f, tasks, s) && Enabled(s, a)
    ensures Invariant(f, tasks, Step(f, s, a))
  {
    StepKeepsProtocol(f, s, a);
    forall t ensures Everywhere(Step(f, s, a), t) == multiset(tasks)[t] { StepConserves(f, s, a, t); }
  }

  /** Every reachable state has the invariant; in particular the result channel is closed once, after the last send. */
  lemma {:induction false} RunInvariant<T(!new), U(!new)>(f: T -> U, tasks: seq<T>, s: State<T, U>,
                                                          actions: seq<Action>)
    requires Invariant(f, tasks, s) && CanRun(f, s, actions)
    ensures Invariant(f, tasks, Run(f, s, actions))
    decreases |actions|
  {
    if actions != [] {
      StepKeepsInvariant(f, tasks, s, actions[0]);
      RunInvariant(f, tasks, Step(f, s, actions[0]), actions[1..]);
    }
  }

  /** No send on a closed channel, no second close of one, and no call of yield after it has returned false. */
  lemma NoSendOnClosed<T(!new), U(!new)>(f: T -> U, tasks: seq<T>, numWorkers: nat, actions: seq<Action>, a: Action)
    requires numWorkers > 0 && CanRun(f, Start<T, U>(tasks, numWorkers), actions)
    requires Enabled(Run(f, Start<T, U>(tasks, numWorkers), actions), a)
    ensures var s := Run(f, Start<T, U>(tasks, numWorkers), actions);
      && (a.Put? ==> !s.queueClosed)
      && (a.Send? ==> !s.feedClosed)
      && (a.CloseQueue? ==> !s.queueClosed)
      && (a.FeedEnd? || a.FeedCancel? ==> !s.feedClosed)
      && (a.YieldReturns? ==> !s.stopped)
  {
    StartInvariant<T, U>(f, tasks, numWorkers);
    RunInvariant(f, tasks, Start<T, U>(tasks, numWorkers), actions);
  }

  // ---------------------------------------------------------------- progress

  function FirstLive<T, U>(ws: seq<Worker<T, U>>): (w: nat)
    ensures w <= |ws| && (w < |ws| ==> !ws[w].Exited?) && forall i :: 0 <= i < w ==> ws[i].Exited?
  {
    if ws == [] || !ws[0].Exited? then 0 else 1 + FirstLive(ws[1..])
  }

  /** Some action is enabled until the consumer has returned. */
  function SomeEnabled<T(!new), U(!new)>(s: State<T, U>): (a: Action)
    requires 0 < |s.workers| && !s.consumer.Returned?
    requires (s.queueClosed ==> s.feedClosed) && (s.queueClosed <==> s.closer.Done?)
             && (s.feedClosed <==> s.feeder.Stopped?)
    ensures Enabled(s, a)
  {
    if s.consumer.Yielding? then YieldReturns(true)
    else if s.queue != [] then (if s.consumer.Receiving? then Receive else Drain)
    else if s.queueClosed then (if s.consumer.Receiving? then ReceiveEnd else Return)
    else
      var w := FirstLive(s.workers);
      if w == |s.workers| then CloseQueue
      else match s.workers[w]
      case Got(_) => Check(w)
      case Working(_) => Work(w)
      case Sending(_) => Put(w)
      case Exited => CloseQueue
      case Ready => if s.feedClosed then Exit(w) else if s.feeder.rest == [] then FeedEnd else Send(w)
  }

  /** No reachable state is stuck, and only when the consumer has returned is nothing left to do. */
  lemma NoDeadlock<T(!new), U(!new)>(f: T -> U, tasks: seq<T>, s: State<T, U>)
    requires Invariant(f, tasks, s)
    ensures (exists a :: Enabled(s, a)) <==> !s.consumer.Returned?
  {
    if !s.consumer.Returned? {
      assert s.queueClosed ==> s.workers[0].Exited?;
      assert Enabled(s, SomeEnabled(s));
    } else {
      forall a ensures !Enabled(s, a) {
        assert s.workers[0].Exited?;
      }
    }
  }

  function WorkerRank<T, U>(w: Worker<T, U>): nat {
    match w
    case Exited => 0
    case Ready => 1
    case Sending(_) => 6
    case Working(_) => 7
    case Got(_) => 8
  }

  function WorkersRank<T, U>(ws: seq<Worker<T, U>>): nat {
    if ws == [] then 0 else WorkersRank(ws[..|ws| - 1]) + WorkerRank(ws[|ws| - 1])
  }

  /** An upper bound on the number of steps that are left. */
  function Rank<T(!new), U(!new)>(s: State<T, U>): nat {
    (if s.feeder.Feeding? then 10 * |s.feeder.rest| + 1 else 0)
    + WorkersRank(s.workers) + 3 * |s.queue| + (if s.closer.Waiting? then 1 else 0)
    + match s.consumer
      case Returned => 0
      case Draining => 2
      case Receiving => 3
      case Yielding(_) => 5
  }

  lemma {:induction false} WorkersRankUpdate<T, U>(ws: seq<Worker<T, U>>, w: nat, x: Worker<T, U>)
    requires w < |ws|
    ensures WorkersRank(ws[w := x]) + WorkerRank(ws[w]) == WorkersRank(ws) + WorkerRank(x)
  {
    var n := |ws| - 1;
    if w < n {
      assert ws[w := x][..n] == ws[..n][w := x];
      WorkersRankUpdate(ws[..n], w, x);
    } else {
      assert ws[w := x][..n] == ws[..n];
    }
  }

  lemma {:induction false} StartRank<T, U>(n: nat)
    ensures WorkersRank<T, U>(seq(n, _ => Ready)) == n
  {
    if n > 0 {
      var ws: seq<Worker<T, U>> := seq(n, _ => Ready);
      var init: seq<Worker<T, U>> := seq(n - 1, _ => Ready);
      assert ws[..n - 1] == init;
      StartRank<T, U>(n - 1);
    }
  }

  lemma SendDecreases<T(!new), U(!new)>(f: T -> U, s: State<T, U>, w: nat)
    requires Enabled(s, Send(w))
    ensures Rank(Step(f, s, Send(w))) < Rank(s)
  {
    WorkersRankUpdate(s.workers, w, Got(s.feeder.rest[0]));
  }

  lemma PutDecreases<T(!new), U(!new)>(f: T -> U, s: State<T, U>, w: nat)
    requires Enabled(s, Put(w))
    ensures Rank(Step(f, s, Put(w))) < Rank(s)
  {
    WorkersRankUpdate(s.workers, w, Ready);
  }

  /** A worker alone. */
  lemma WorkerDecreases<T(!new), U(!new)>(f: T -> U, s: State<T, U>, a: Action)
    requires Enabled(s, a) && (a.Check? || a.Work? || a.Exit?)
    ensures Rank(Step(f, s, a)) < Rank(s)
  {
    WorkersRankUpdate(s.workers, a.w, Step(f, s, a).workers[a.w]);
  }

  /** Every step brings the end closer. */
  lemma StepDecreases<T(!new), U(!new)>(f: T -> U, s: State<T, U>, a: Action)
    requires Enabled(s, a)
    ensures Rank(Step(f, s, a)) < Rank(s)
  {
    if a.Send? {
      SendDecreases(f, s, a.w);
    } else if a.Put? {
      PutDecreases(f, s, a.w);
    } else if ByWorker(a) {
      WorkerDecreases(f, s, a);
    }
  }

  lemma {:induction false} RunDecreases<T(!new), U(!new)>(f: T -> U, s: State<T, U>, actions: seq<Action>)
    requires CanRun(f, s, actions)
    ensures |actions| + Rank(Run(f, s, actions)) <= Rank(s)
    decreases |actions|
  {
    if actions != [] {
      StepDecreases(f, s, actions[0]);
      RunDecreases(f, Step(f, s, actions[0]), actions[1..]);
    }
  }

  /** Whatever the schedule and whenever the consumer cancels, the pipeline ends within this many steps. */
  lemma RunIsBounded<T(!new), U(!new)>(f: T -> U, tasks: seq<T>, numWorkers: nat, actions: seq<Action>)
    requires CanRun(f, Start<T, U>(tasks, numWorkers), actions)
    ensures |actions| <= 10 * |tasks| + numWorkers + 5
  {
    RunDecreases(f, Start<T, U>(tasks, numWorkers), actions);
    StartRank<T, U>(numWorkers);
  }

  // ---------------------------------------------------------------- results

  /**
   When results returns, the feeder and all workers have finished. If yield never returned false,
   every task's result has been yielded exactly once.
   */
  lemma Finished<T(!new), U(!new)>(f: T -> U, tasks: seq<T>, s: State<T, U>)
    requires Invariant(f, tasks, s) && s.consumer.Returned?
    ensures s.feeder.Stopped? && s.closer.Done? && forall w :: 0 <= w < |s.workers| ==> s.workers[w].Exited?
    ensures forall t ::
      multiset(tasks)[t] == (CountInputs(s.yielded, t) + CountInputs(s.drained, t)
                             + multiset(s.skipped)[t] + multiset(Unsent(s.feeder))[t])
    ensures !s.stopped ==> forall t :: CountInputs(s.yielded, t) == multiset(tasks)[t]
    ensures Correct(f, s.yielded)
  {
    assert s.workers[0].Exited?;
    forall t: T ensures CountHeld(s.workers, t) == 0 { NoWorkHeld(s.workers, t); }
    forall t
      ensures multiset(tasks)[t] == (CountInputs(s.yielded, t) + CountInputs(s.drained, t)
                                     + multiset(s.skipped)[t] + multiset(Unsent(s.feeder))[t])
    {
      assert Everywhere(s, t) == multiset(tasks)[t];
    }
  }

  lemma StepYields<T(!new), U(!new)>(f: T -> U, s: State<T, U>, a: Action)
    requires Protocol(f, s) && Enabled(s, a)
    ensures s.yielded <= Step(f, s, a).yielded
    ensures s.stopped ==> Step(f, s, a).stopped && Step(f, s, a).yielded == s.yielded
  {
  }

  /** Results are only ever added to those yielded, and none after yield has returned false. */
  lemma {:induction false} YieldedOnlyGrows<T(!new), U(!new)>(f: T -> U, tasks: seq<T>, s: State<T, U>,
                                                              actions: seq<Action>)
    requires Invariant(f, tasks, s) && CanRun(f, s, actions)
    ensures s.yielded <= Run(f, s, actions).yielded
    ensures s.stopped ==> Run(f, s, actions).stopped && Run(f, s, actions).yielded == s.yielded
    decreases |actions|
  {
    if actions != [] {
      StepKeepsInvariant(f, tasks, s, actions[0]);
      StepYields(f, s, actions[0]);
      YieldedOnlyGrows(f, tasks, Step(f, s, actions[0]), actions[1..]);
    }
  }

  /** Everything that has been put in the result channel, in the order in which it was received or is queued. */
  ghost function Arrived<T, U>(s: State<T, U>): seq<Result<T, U>> {
    s.yielded + (if s.consumer.Yielding? then [s.consumer.result] else []) + s.drained + s.queue
  }

  /** What the workers put there. */
  ghost function Puts<T(!new), U(!new)>(f: T -> U, s: State<T, U>, actions: seq<Action>): seq<Result<T, U>>
    requires CanRun(f, s, actions)
    decreases |actions|
  {
    if actions == [] then []
    else
      var a := actions[0];
      (if a.Put? then [s.workers[a.w].result] else []) + Puts(f, Step(f, s, a), actions[1..])
  }

  lemma PutsInOrder<T(!new), U(!new)>(f: T -> U, s: State<T, U>, w: nat)
    requires Enabled(s, Put(w))
    ensures Arrived(Step(f, s, Put(w))) == Arrived(s) + [s.workers[w].result]
  {
  }

  lemma TakesInOrder<T(!new), U(!new)>(f: T -> U, s: State<T, U>, a: Action)
    requires Protocol(f, s) && Enabled(s, a) && (a.Receive? || a.Drain? || a.YieldReturns?)
    ensures Arrived(Step(f, s, a)) == Arrived(s)
  {
    if !a.YieldReturns? { assert s.queue == [s.queue[0]] + s.queue[1..]; }
  }

  lemma StepKeepsOrder<T(!new), U(!new)>(f: T -> U, s: State<T, U>, a: Action)
    requires Protocol(f, s) && Enabled(s, a)
    ensures Arrived(Step(f, s, a)) == Arrived(s) + if a.Put? then [s.workers[a.w].result] else []
  {
    if a.Put? {
      PutsInOrder(f, s, a.w);
    } else if a.Receive? || a.Drain? || a.YieldReturns? {
      TakesInOrder(f, s, a);
    }
  }

  /** Results are yielded, and after that drained, in the order in which workers put them in the channel. */
  lemma {:induction false} ResultsInOrder<T(!new), U(!new)>(f: T -> U, tasks: seq<T>, s: State<T, U>,
                                                            actions: seq<Action>)
    requires Invariant(f, tasks, s) && CanRun(f, s, actions)
    ensures Arrived(Run(f, s, actions)) == Arrived(s) + Puts(f, s, actions)
    decreases |actions|
  {
    if actions != [] {
      var a, rest := actions[0], actions[1..];
      StepKeepsInvariant(f, tasks, s, a);
      StepKeepsOrder(f, s, a);
      ResultsInOrder(f, tasks, Step(f, s, a), rest);
      Regroup(Arrived(s), if a.Put? then [s.workers[a.w].result] else [], Puts(f, Step(f, s, a), rest));
    }
  }

  lemma Regroup<T>(a: seq<T>, b: seq<T>, c: seq<T>)
    ensures a + b + c == a + (b + c)
  {
  }

  /** Only an answer of false stops the consumer, and each answer is to one more result that was yielded. */
  lemma {:induction false} StoppedByAnswer<T(!new), U(!new)>(f: T -> U, s: State<T, U>, actions: seq<Action>)
    requires CanRun(f, s, actions)
    ensures Run(f, s, actions).stopped <==> s.stopped || YieldReturns(false) in actions
    ensures |Run(f, s, actions).yielded| == |s.yielded| + Answers(actions)
    decreases |actions|
  {
    if actions != [] {
      StoppedByAnswer(f, Step(f, s, actions[0]), actions[1..]);
      assert actions == [actions[0]] + actions[1..];
    }
  }

  /** How often yield has returned. */
  function Answers(actions: seq<Action>): nat {
    if actions == [] then 0 else (if actions[0].YieldReturns? then 1 else 0) + Answers(actions[1..])
  }

  /** The consumer was asked after each result, and has stopped exactly when it answered no, which was to the last. */
  ghost predicate Asked<T(!new), U(!new)>(more: seq<Result<T, U>> -> bool, yielded: seq<Result<T, U>>, stopped: bool) {
    && (stopped <==> yielded != [] && !more(yielded))
    && forall k :: 0 < k < |yielded| ==> more(yielded[..k])
  }

  lemma StepAsks<T(!new), U(!new)>(f: T -> U, more: seq<Result<T, U>> -> bool, s: State<T, U>, a: Action)
    requires Protocol(f, s) && Asked(more, s.yielded, s.stopped) && Enabled(s, a)
    requires a.YieldReturns? ==> a.more == more(s.yielded + [s.consumer.result])
    ensures Asked(more, Step(f, s, a).yielded, Step(f, s, a).stopped)
  {
    if a.YieldReturns? {
      var r := s.yielded + [s.consumer.result];
      forall k | 0 < k < |r| ensures more(r[..k]) {
        if k < |s.yielded| {
          assert r[..k] == s.yielded[..k];
        } else {
          assert r[..k] == s.yielded;
        }
      }
    }
  }

  lemma {:induction false} RunOneMore<T(!new), U(!new)>(f: T -> U, s: State<T, U>, actions: seq<Action>, a: Action)
    requires CanRun(f, s, actions) && Enabled(Run(f, s, actions), a)
    ensures CanRun(f, s, actions + [a]) && Run(f, s, actions + [a]) == Step(f, Run(f, s, actions), a)
    decreases |actions|
  {
    var more := actions + [a];
    if actions == [] {
      assert more == [a];
    } else {
      assert more[1..] == actions[1..] + [a];
      RunOneMore(f, Step(f, s, actions[0]), actions[1..], a);
    }
  }

  /** A run with n workers, to the return of the consumer. */
  ghost predicate IsRunOf<T(!new), U(!new)>(f: T -> U, tasks: seq<T>, n: nat, actions: seq<Action>,
                                            yielded: seq<Result<T, U>>, stopped: bool)
  {
    && CanRun(f, Start<T, U>(tasks, n), actions)
    && var s := Run(f, Start<T, U>(tasks, n), actions);
       s.consumer.Returned? && s.yielded == yielded && s.stopped == stopped
  }

  /** Runs the pipeline under an arbitrary schedule; after each result the consumer decides whether it wants more. */
  method Results<T(!new, ==), U(!new)>(f: T -> U, tasks: seq<T>, numWorkers: int, procs: nat,
                                       more: seq<Result<T, U>> -> bool)
    returns (yielded: seq<Result<T, U>>, stopped: bool, ghost actions: seq<Action>)
    requires procs > 0
    ensures IsRunOf(f, tasks, if numWorkers < 1 then procs else numWorkers, actions, yielded, stopped)
    ensures Correct(f, yielded)
    ensures forall t :: CountInputs(yielded, t) <= multiset(tasks)[t]
    ensures !stopped ==> forall t :: CountInputs(yielded, t) == multiset(tasks)[t]
    ensures stopped <==> yielded != [] && !more(yielded)
    ensures forall k :: 0 < k < |yielded| ==> more(yielded[..k])
  {
    var n := if numWorkers < 1 then procs else numWorkers;
    var s := Start<T, U>(tasks, n);
    ghost var start := s;
    actions := [];
    StartInvariant<T, U>(f, tasks, n);
    while !s.consumer.Returned?
      invariant Invariant(f, tasks, s) && Asked(more, s.yielded, s.stopped)
      invariant CanRun(f, start, actions) && s == Run(f, start, actions)
      decreases Rank(s)
    {
      assert s.queueClosed ==> s.workers[0].Exited?;
      var a: Action := *;
      if !Enabled(s, a) { a := SomeEnabled(s); }
      if a.YieldReturns? { a := YieldReturns(more(s.yielded + [s.consumer.result])); }
      StepKeepsInvariant(f, tasks, s, a);
      StepAsks(f, more, s, a);
      StepDecreases(f, s, a);
      RunOneMore(f, start, actions, a);
      s, actions := Step(f, s, a), actions + [a];
    }
    Finished(f, tasks, s);
    yielded, stopped := s.yielded, s.stopped;
  }
}
