/** Attempts at updates: some are applied in the end, others are given up and reverted. */
module Attempts {
  import opened Values
  import opened Store
  import opened PlanMachine
  import opened PlanFiles
  import opened PlanTheorems
  import opened PlanSteps
  import opened PlanSoundness
  import opened ObjectUpdates
  import opened Inventories
  import opened BuiltInventories
  import opened Objects

  /**
   An attempt at update m. Its run t is that of the last process that worked on it, which may have loaded a plan
   saved by an earlier one; t[a..b] is the call that ends the attempt: an Apply or a Revert that returns nil.
   */
  datatype Attempt = Attempt(m: Made, faults: Faults, t: seq<State>, a: nat, b: nat, applied: bool)
  {
    function End(): Files {
      if b < |t| then t[b].files else map[]
    }

    ghost predicate Ends() {
      && Resumed(m.u.Plan(), faults, t) && Call(m.u.Plan(), t, a, b, !applied) && t[b].outcome == Success
    }

    /**
     Before the last call, an update to be applied had its files as its flags say, except for what was still to be
     written; an update to be reverted had changed nothing that no completed step restores.
     */
    ghost predicate Clean() {
      && a < |t| && |t[a].done| == |m.u.Plan()|
      && if applied then Accurate(m.u.Plan(), true, m.u.f0, t[a].files, t[a].done)
         else forall p :: Covered(m.u.Plan(), t[a].done, p) || Get(t[a].files, p) == Get(m.u.f0, p)
    }
  }

  /** The updates that were applied. */
  function Kept(xs: seq<Attempt>): seq<Made> {
    if xs == [] then []
    else Kept(xs[..|xs| - 1]) + if xs[|xs| - 1].applied then [xs[|xs| - 1].m] else []
  }

  function CurrentOf(ms: seq<Made>): Option<StoredInventory> {
    if ms == [] then None else Some(ms[|ms| - 1].u.next)
  }

  /** The files after one uninterrupted run of each update. */
  ghost function FilesOf(ms: seq<Made>): Files {
    if ms == [] then map[] else FullRun(ms[|ms| - 1].u.Plan(), ms[|ms| - 1].u.f0)
  }

  function EndOf(xs: seq<Attempt>): Files {
    if xs == [] then map[] else xs[|xs| - 1].End()
  }

  /** m is made from the inventory of the last of the updates ms, for an object with the files f. */
  ghost predicate MadeFrom(id: string, source: string -> Bytes, ms: seq<Made>, f: Files, m: Made) {
    var current := CurrentOf(ms);
    && m.u.source == source && m.u.prev == current && m.u.f0 == f
    && (current.Some? ==> Normalizable(current.value.inv))
    && Plans(BaseOf(current, id, m.spec), m.v, m.now, m.u)
  }

  /**
   x is made from the inventory of the last applied update, and works on the files that the attempts before it left.
   */
  ghost predicate Follows(id: string, source: string -> Bytes, xs: seq<Attempt>, x: Attempt) {
    MadeFrom(id, source, Kept(xs), EndOf(xs), x.m) && x.Ends()
  }

  /** Attempts at updates of a new object, each clean. */
  ghost predicate CleanAttempts(id: string, source: string -> Bytes, xs: seq<Attempt>) {
    xs == [] ||
    (var before, x := xs[..|xs| - 1], xs[|xs| - 1];
     CleanAttempts(id, source, before) && Follows(id, source, before, x) && x.Clean())
  }

  /** An attempt leaves the files of its complete update, or those from before it, if and only if it is clean. */
  lemma AttemptOutcome(x: Attempt)
    requires x.m.u.Sound() && x.Ends()
    ensures x.End() == (if x.applied then FullRun(x.m.u.Plan(), x.m.u.f0) else x.m.u.f0) <==> x.Clean()
  {
    var u := x.m.u;
    PlanIsWellFormed(u.next, u.prev, u.content, u.source, u.f0);
    if x.applied {
      ApplyOutcome(u.Plan(), x.faults, u.f0, x.t, x.a, x.b);
    } else {
      RevertOutcome(u.Plan(), x.faults, u.f0, x.t, x.a, x.b);
    }
  }

  /** What is stored after the updates ms agrees with the last of them. */
  ghost predicate Stored(source: string -> Bytes, ms: seq<Made>) {
    ms != [] ==> Agrees(ms[|ms| - 1].u, source)
  }

  lemma MadeIsSound(id: string, source: string -> Bytes, ms: seq<Made>, m: Made)
    requires MadeFrom(id, source, ms, FilesOf(ms), m) && Stored(source, ms)
    ensures m.u.Sound()
  {
    PlannedIsSound(BaseOf(CurrentOf(ms), id, m.spec), m.v, m.now, m.u);
  }

  lemma PlannedIsSound(base: Inventory, v: NewVersion, now: nat, u: Update)
    requires Plans(base, v, now, u)
    requires if u.prev.None? then u.f0 == map[] else HasRoot(u.prev.value, u.f0)
    ensures u.Sound()
  {
    NextHeadValid(base, v, now, u);
    if u.prev.Some? { StoredIsOriginal(u.next, u.prev.value, u.f0); }
    UpdatesIsSound(base, v, now, u);
  }

  /** The first update is made from this. */
  ghost function FirstOf(id: string, ms: seq<Made>): Inventory {
    BaseOf(None, id, if ms == [] then NoSpec else ms[0].spec)
  }

  lemma OneMoreMade(id: string, source: string -> Bytes, ms: seq<Made>, m: Made)
    requires UpdateChain(FirstOf(id, ms), source, ms)
    requires MadeFrom(id, source, ms, FilesOf(ms), m)
    ensures UpdateChain(FirstOf(id, ms + [m]), source, ms + [m])
  {
    var more := ms + [m];
    forall i: nat | i < |more| ensures MadeAfter(FirstOf(id, more), source, more, i) {
      if i < |ms| {
        assert MadeAfter(FirstOf(id, ms), source, ms, i);
      } else if i > 0 {
        assert more[i - 1] == ms[|ms| - 1];
      }
    }
  }

  /** The applied attempts are a chain of complete updates, and the files are those that the last of them leaves. */
  ghost predicate NoTrace(id: string, source: string -> Bytes, xs: seq<Attempt>) {
    UpdateChain(FirstOf(id, Kept(xs)), source, Kept(xs)) && EndOf(xs) == FilesOf(Kept(xs)) && Stored(source, Kept(xs))
  }

  lemma KeptMore(xs: seq<Attempt>, x: Attempt)
    ensures Kept(xs + [x]) == Kept(xs) + if x.applied then [x.m] else []
    ensures EndOf(xs + [x]) == x.End()
  {
    assert (xs + [x])[..|xs|] == xs;
  }

  lemma MadeIsStored(id: string, source: string -> Bytes, ms: seq<Made>)
    requires UpdateChain(FirstOf(id, ms), source, ms)
    ensures Stored(source, ms)
  {
    if ms != [] { AllUpdatesStored(FirstOf(id, ms), source, ms, |ms| - 1); }
  }

  lemma OneMoreAttempt(id: string, source: string -> Bytes, xs: seq<Attempt>, x: Attempt)
    requires NoTrace(id, source, xs) && Follows(id, source, xs, x) && x.Clean()
    ensures NoTrace(id, source, xs + [x])
  {
    KeptMore(xs, x);
    MadeIsSound(id, source, Kept(xs), x.m);
    AttemptOutcome(x);
    if x.applied {
      OneMoreMade(id, source, Kept(xs), x.m);
      MadeIsStored(id, source, Kept(xs) + [x.m]);
    } else {
      assert Kept(xs + [x]) == Kept(xs);
    }
  }

  lemma NoAttempts(id: string, source: string -> Bytes)
    ensures NoTrace(id, source, [])
  {
    assert Kept([]) == [];
  }

  /** However many updates of an object fail, are interrupted and given up in between, these leave no trace. */
  lemma {:induction false} AttemptsLeaveNoTrace(id: string, source: string -> Bytes, xs: seq<Attempt>)
    requires CleanAttempts(id, source, xs)
    ensures NoTrace(id, source, xs)
    decreases |xs|
  {
    if xs == [] {
      NoAttempts(id, source);
    } else {
      var before, x := xs[..|xs| - 1], xs[|xs| - 1];
      AttemptsLeaveNoTrace(id, source, before);
      OneMoreAttempt(id, source, before, x);
      LastApart(xs);
    }
  }

  /** What is stored is what an object with the inventory current has: all its content, and its root files. */
  ghost predicate Holds(current: Option<StoredInventory>, source: string -> Bytes, f: Files) {
    if current.None? then f == map[]
    else
      && ValidInventory(current.value.inv)
      && HasContent(current.value.inv.manifest, source, f)
      && HasRoot(current.value, f)
  }

  lemma AttemptsAreStored(id: string, source: string -> Bytes, xs: seq<Attempt>)
    requires CleanAttempts(id, source, xs)
    ensures Holds(CurrentOf(Kept(xs)), source, EndOf(xs))
  {
    AttemptsLeaveNoTrace(id, source, xs);
    if Kept(xs) != [] {
      WellBuiltIsValid(Kept(xs)[|Kept(xs)| - 1].u.next.inv);
    }
  }

  /**
   Without torn files, attempts are clean, whatever failed and whenever: when the algorithm stays, or they are
   applied.
   */
  lemma WithoutTears(x: Attempt)
    requires x.m.u.Sound() && x.Ends() && Run(x.m.u.Plan(), x.faults, x.m.u.f0, x.t) && x.faults == Faults(false, false)
    requires x.applied || !AlgChanged(x.m.u.next, x.m.u.prev)
    ensures x.Clean()
  {
    var u := x.m.u;
    PlanIsWellFormed(u.next, u.prev, u.content, u.source, u.f0);
    if x.applied {
      ApplyConverges(u.Plan(), x.faults, u.f0, x.t, x.a, x.b);
    } else {
      UpdateReverts(u, x.t, x.a, x.b);
    }
    AttemptOutcome(x);
  }

  /** And so are attempts at first versions that are given up, whatever tore. */
  lemma FirstVersionIsClean(x: Attempt)
    requires x.m.u.Sound() && x.m.u.prev.None? && x.Ends() && !x.applied
    requires Run(x.m.u.Plan(), x.faults, x.m.u.f0, x.t)
    ensures x.Clean()
  {
    FirstUpdateReverts(x.m.u, x.faults, x.t, x.a, x.b);
    AttemptOutcome(x);
  }
}
