/** What the theorems on update plans say for the update of an object. */
module ObjectUpdates {
  import opened Values
  import opened Store
  import opened PlanMachine
  import opened PlanFiles
  import opened PlanTheorems
  import opened TornRuns
  import Crashes
  import opened PlanSteps
  import opened PlanSoundness
  import opened Inventories
  import opened BuiltInventories
  import DigestMaps
  import Strings
  import VNums

  /** An update of an object whose files were f0. */
  datatype Update = Update(next: StoredInventory, prev: Option<StoredInventory>, content: seq<(Path, string)>,
                           source: string -> Bytes, f0: Files)
  {
    function Plan(): Plan {
      PlanOf(next, prev, content, source)
    }

    ghost predicate Sound() {
      NextInventory(next, prev) && GoodContent(next, content) && OriginalObject(next, prev, f0)
    }

    /** The number of the step that writes the root inventory. */
    function Commit(): nat {
      Decls(next, prev) + |content| + 4
    }
  }

  // ---------------------------------------------------------------- from the builder to the plan

  /** The new content of an inventory that the builder made is what a sound update asks for. */
  lemma BuiltContentIsGood(inv: Inventory, v: NewVersion, now: nat, next: StoredInventory, pm: DigestMaps.PathMap,
                           content: seq<(Path, string)>)
    requires WellBuilt(inv) && Suitable(inv, v, now) && WithVersion(inv, v, now) == Ok(next.inv)
    requires ContentOf(next.inv.manifest, next.inv.head, pm) && Listing(pm, content)
    ensures GoodContent(next, content)
  {
    forall i | 0 <= i < |content| ensures var x := content[i].0;
      && InVersion(next.inv.head, x)
      && x != InDir(next.inv.head, INVENTORY) && x != InDir(next.inv.head, Sidecar(next.inv.alg))
    {
      NewContentName(inv, v, now, next, pm, content[i].0);
    }
  }

  lemma NewContentName(inv: Inventory, v: NewVersion, now: nat, next: StoredInventory, pm: DigestMaps.PathMap, x: Path)
    requires WellBuilt(inv) && Suitable(inv, v, now) && WithVersion(inv, v, now) == Ok(next.inv)
    requires ContentOf(next.inv.manifest, next.inv.head, pm) && x in pm
    ensures InVersion(next.inv.head, x)
    ensures x != InDir(next.inv.head, INVENTORY) && x != InDir(next.inv.head, Sidecar(next.inv.alg))
  {
    DirNameValid(inv.contentDir);
    var p := LogicalPathOf(inv, v, now, pm, x);
    ContentNames(next.inv.head, DirName(inv.contentDir), p, v.alg);
  }

  lemma ContentNames(head: VNum, dir: string, p: string, alg: string)
    requires Strings.ValidName(dir) && DigestMaps.KnownAlgorithm(alg)
    ensures var x := ContentPath(head, dir, p);
      InVersion(head, x) && x != InDir(head, INVENTORY) && x != InDir(head, Sidecar(alg))
  {
    ContentPathFacts(head, dir, p, p);
    ContentIsNotReserved(head, dir, p, INVENTORY);
    ContentIsNotReserved(head, dir, p, Sidecar(alg));
  }

  // ---------------------------------------------------------------- the updated object

  /** A file of the new version: content, an inventory or its sidecar in the version directory. */
  predicate IsNewFile(u: Update, p: Path, data: Bytes) {
    || (exists i :: 0 <= i < |u.content| && u.content[i].0 == p && data == u.source(u.content[i].1))
    || (p == InDir(u.next.inv.head, INVENTORY) && data == u.next.bytes)
    || (p == InDir(u.next.inv.head, Sidecar(u.next.inv.alg)) && data == SidecarBody(u.next.digest))
  }

  lemma BeforeCommit(u: Update, i: nat)
    requires i < u.Commit()
    ensures u.Commit() == |u.Plan()| - 2 && Before(u.Plan(), i, u.Commit())
  {
    StepAt(u.next, u.prev, u.content, u.source, u.Commit());
  }

  /** The number of the step that writes the new file p. */
  lemma NewFileStep(u: Update, p: Path, data: Bytes) returns (i: nat)
    requires IsNewFile(u, p, data)
    ensures i < u.Commit() < |u.Plan()| - 1 && Before(u.Plan(), i, u.Commit())
    ensures Effect(u.Plan()[i].run, p) == Some(Some(data))
  {
    var d, c := Decls(u.next, u.prev), |u.content|;
    if p == InDir(u.next.inv.head, INVENTORY) && data == u.next.bytes {
      i := d + c + 2;
    } else if p == InDir(u.next.inv.head, Sidecar(u.next.inv.alg)) && data == SidecarBody(u.next.digest) {
      i := d + c + 3;
    } else {
      var k :| 0 <= k < c && u.content[k].0 == p && data == u.source(u.content[k].1);
      i := d + 2 + k;
    }
    BeforeCommit(u, i);
  }

  lemma CommitStep(u: Update)
    requires u.Sound()
    ensures u.Commit() == |u.Plan()| - 2 && Before(u.Plan(), u.Commit(), u.Commit() + 1)
    ensures Effect(u.Plan()[u.Commit()].run, INVENTORY) == Some(Some(u.next.bytes))
    ensures Effect(u.Plan()[u.Commit() + 1].run, Sidecar(u.next.inv.alg)) == Some(Some(SidecarBody(u.next.digest)))
  {
    StepAt(u.next, u.prev, u.content, u.source, u.Commit());
    StepAt(u.next, u.prev, u.content, u.source, u.Commit() + 1);
    EffectOne(Write(INVENTORY, u.next.bytes), INVENTORY);
    var run, p := u.Plan()[u.Commit() + 1].run, Sidecar(u.next.inv.alg);
    EffectOne(run[0], p);
    if |run| == 2 {
      EffectTwo(run[0], run[1], p);
      NamesApart(u.next, u.prev, u.next.inv.alg, u.prev.value.inv.alg, p);
      assert run == [run[0]] + [run[1]];
    } else {
      assert run == [run[0]];
    }
  }

  /**
   Commit order. As soon as the root inventory is no longer the original one, every new file is in place
   with its content; as soon as the root sidecar has changed, the root inventory is the new one. So it is
   in every state of Apply calls whose failed steps tear their files, and, with all-or-nothing operations
   and an unchanged digest algorithm, in every state of any calls, forward and backward.
   */
  lemma UpdateCommitOrder(u: Update, faults: Faults, t: seq<State>, k: nat, p: Path, data: Bytes)
    requires u.Sound() && Run(u.Plan(), faults, u.f0, t) && k < |t|
    requires OnlyApply(t) || (!AlgChanged(u.next, u.prev) && faults == Faults(false, false))
    ensures Get(t[k].files, INVENTORY) != Get(u.f0, INVENTORY) && IsNewFile(u, p, data) ==>
            Get(t[k].files, p) == Some(data)
    ensures Get(t[k].files, Sidecar(u.next.inv.alg)) != Get(u.f0, Sidecar(u.next.inv.alg))
            ==> Get(t[k].files, INVENTORY) == Some(u.next.bytes)
  {
    PlanIsWellFormed(u.next, u.prev, u.content, u.source, u.f0);
    if !AlgChanged(u.next, u.prev) { UnchangedIsAtomic(u); }
    CommitStep(u);
    if Get(t[k].files, INVENTORY) != Get(u.f0, INVENTORY) && IsNewFile(u, p, data) {
      var i := NewFileStep(u, p, data);
      CommitOrder(u.Plan(), faults, u.f0, t, k, u.Commit(), INVENTORY, i, p);
    }
    if Get(t[k].files, Sidecar(u.next.inv.alg)) != Get(u.f0, Sidecar(u.next.inv.alg)) {
      CommitOrder(u.Plan(), faults, u.f0, t, k, u.Commit() + 1, Sidecar(u.next.inv.alg), u.Commit(), INVENTORY);
    }
  }

  lemma UnchangedIsAtomic(u: Update)
    requires !AlgChanged(u.next, u.prev)
    ensures Atomic(u.Plan())
  {
    forall i | 0 <= i < |u.Plan()| ensures |u.Plan()[i].run| <= 1 {
      StepAt(u.next, u.prev, u.content, u.source, i);
    }
  }

  /** The files after an update: new files, root inventory, sidecar and declaration; otherwise as before. */
  ghost predicate Updated(u: Update, f: Files) {
    && (forall p, data :: IsNewFile(u, p, data) ==> Get(f, p) == Some(data))
    && Get(f, INVENTORY) == Some(u.next.bytes)
    && Get(f, Sidecar(u.next.inv.alg)) == Some(SidecarBody(u.next.digest))
    && (OldSpec(u.prev) != u.next.inv.spec ==> Get(f, DeclName(u.next.inv.spec)) == Some(DeclBody(u.next.inv.spec)))
    && (u.prev.Some? && u.prev.value.inv.spec != u.next.inv.spec ==> Get(f, DeclName(u.prev.value.inv.spec)) == None)
    && (AlgChanged(u.next, u.prev) ==> Get(f, Sidecar(u.prev.value.inv.alg)) == None)
    && (forall p :: !IsTarget(u, p) ==> Get(f, p) == Get(u.f0, p))
  }

  /** p is one of the paths that the update writes or removes. */
  ghost predicate IsTarget(u: Update, p: Path) {
    || (exists i: nat :: i < |u.Plan()| && Hits(u.Plan(), i, p))
  }

  lemma FullRunHits(u: Update, i: nat, p: Path, v: Option<Bytes>)
    requires u.Sound() && i < |u.Plan()| && Effect(u.Plan()[i].run, p) == Some(v)
    ensures Get(FullRun(u.Plan(), u.f0), p) == v
  {
    PlanIsWellFormed(u.next, u.prev, u.content, u.source, u.f0);
    var plan := u.Plan();
    RunFirstAt(plan, u.f0, |plan|, p);
    var done := seq(|plan|, i => i < |plan|);
    assert DoneHits(plan, done, i, p);
  }

  lemma FullRunMisses(u: Update, p: Path)
    requires u.Sound() && !IsTarget(u, p)
    ensures Get(FullRun(u.Plan(), u.f0), p) == Get(u.f0, p)
  {
    PlanIsWellFormed(u.next, u.prev, u.content, u.source, u.f0);
    RunFirstAt(u.Plan(), u.f0, |u.Plan()|, p);
    ExpectedMiss(u.Plan(), u.f0, seq(|u.Plan()|, i => i < |u.Plan()|), p);
  }

  lemma FullRunRootFiles(u: Update)
    requires u.Sound()
    ensures var f := FullRun(u.Plan(), u.f0);
      && Get(f, INVENTORY) == Some(u.next.bytes)
      && Get(f, Sidecar(u.next.inv.alg)) == Some(SidecarBody(u.next.digest))
      && (AlgChanged(u.next, u.prev) ==> Get(f, Sidecar(u.prev.value.inv.alg)) == None)
  {
    CommitStep(u);
    FullRunHits(u, u.Commit(), INVENTORY, Some(u.next.bytes));
    FullRunHits(u, u.Commit() + 1, Sidecar(u.next.inv.alg), Some(SidecarBody(u.next.digest)));
    if AlgChanged(u.next, u.prev) {
      StepAt(u.next, u.prev, u.content, u.source, u.Commit() + 1);
      var run, p := u.Plan()[u.Commit() + 1].run, Sidecar(u.prev.value.inv.alg);
      EffectTwo(run[0], run[1], p);
      assert run == [run[0]] + [run[1]];
      FullRunHits(u, u.Commit() + 1, p, None);
    }
  }

  lemma FullRunDeclarations(u: Update)
    requires u.Sound()
    ensures var f := FullRun(u.Plan(), u.f0);
      && (OldSpec(u.prev) != u.next.inv.spec ==> Get(f, DeclName(u.next.inv.spec)) == Some(DeclBody(u.next.inv.spec)))
      && (u.prev.Some? && u.prev.value.inv.spec != u.next.inv.spec ==> Get(f, DeclName(u.prev.value.inv.spec)) == None)
  {
    StepAt(u.next, u.prev, u.content, u.source, 1);
    StepAt(u.next, u.prev, u.content, u.source, 2);
    if OldSpec(u.prev) != u.next.inv.spec {
      EffectOne(u.Plan()[1].run[0], DeclName(u.next.inv.spec));
      FullRunHits(u, 1, DeclName(u.next.inv.spec), Some(DeclBody(u.next.inv.spec)));
      if u.prev.Some? {
        EffectOne(u.Plan()[2].run[0], DeclName(u.prev.value.inv.spec));
        FullRunHits(u, 2, DeclName(u.prev.value.inv.spec), None);
      }
    }
  }

  lemma FullRunIsUpdated(u: Update)
    requires u.Sound()
    ensures Updated(u, FullRun(u.Plan(), u.f0))
  {
    var f := FullRun(u.Plan(), u.f0);
    FullRunRootFiles(u);
    FullRunDeclarations(u);
    forall p, data | IsNewFile(u, p, data) ensures Get(f, p) == Some(data) {
      var i := NewFileStep(u, p, data);
      FullRunHits(u, i, p, Some(data));
    }
    forall p | !IsTarget(u, p) ensures Get(f, p) == Get(u.f0, p) {
      FullRunMisses(u, p);
    }
  }

  lemma Declarations()
    ensures DeclName(Spec1_0) == "0=ocfl_object_1.0" && DeclBody(Spec1_0) == "ocfl_object_1.0\n"
    ensures DeclName(Spec1_1) == "0=ocfl_object_1.1" && DeclBody(Spec1_1) == "ocfl_object_1.1\n"
  {
    assert "0=ocfl_object_" + "1.0" == "0=ocfl_object_1.0" && "ocfl_object_" + "1.0" + "\n" == "ocfl_object_1.0\n";
    assert "0=ocfl_object_" + "1.1" == "0=ocfl_object_1.1" && "ocfl_object_" + "1.1" + "\n" == "ocfl_object_1.1\n";
  }

  lemma Sidecars(alg: string, digest: string, head: VNum)
    ensures Sidecar(alg) == "inventory.json." + alg && SidecarBody(digest) == digest + " inventory.json\n"
    ensures InDir(head, INVENTORY) == VNums.String(head) + "/inventory.json"
    ensures InDir(head, Sidecar(alg)) == VNums.String(head) + "/inventory.json." + alg
  {
    assert "inventory.json" + "." == "inventory.json.";
    assert digest + " " + "inventory.json" + "\n" == digest + (" " + "inventory.json" + "\n");
    assert " " + "inventory.json" + "\n" == " inventory.json\n";
    assert "/" + "inventory.json" == "/inventory.json" && "/" + ("inventory.json." + alg) == "/inventory.json." + alg;
    assert VNums.String(head) + "/" + "inventory.json" == VNums.String(head) + ("/" + "inventory.json");
    var sidecar := "inventory.json." + alg;
    assert VNums.String(head) + "/" + sidecar == VNums.String(head) + ("/" + sidecar);
  }

  /** What a complete update has written, under the names of OCFL 1.1, sections 3.2, 3.5 and 3.6. */
  lemma WrittenFiles(u: Update)
    requires u.Sound()
    ensures var f, alg := FullRun(u.Plan(), u.f0), u.next.inv.alg;
      && Get(f, "inventory.json") == Some(u.next.bytes)
      && Get(f, "inventory.json." + alg) == Some(u.next.digest + " inventory.json\n")
      && Get(f, VNums.String(u.next.inv.head) + "/inventory.json") == Some(u.next.bytes)
      && Get(f, VNums.String(u.next.inv.head) + "/inventory.json." + alg) == Some(u.next.digest + " inventory.json\n")
    ensures forall i :: 0 <= i < |u.content| ==>
              Get(FullRun(u.Plan(), u.f0), u.content[i].0) == Some(u.source(u.content[i].1))
  {
    FullRunIsUpdated(u);
    Sidecars(u.next.inv.alg, u.next.digest, u.next.inv.head);
    assert IsNewFile(u, InDir(u.next.inv.head, INVENTORY), u.next.bytes);
    assert IsNewFile(u, InDir(u.next.inv.head, Sidecar(u.next.inv.alg)), SidecarBody(u.next.digest));
    forall i | 0 <= i < |u.content|
      ensures Get(FullRun(u.Plan(), u.f0), u.content[i].0) == Some(u.source(u.content[i].1))
    {
      assert IsNewFile(u, u.content[i].0, u.source(u.content[i].1));
    }
  }

  /** The first version, and a change of spec, write the declaration; a change removes the other one. */
  lemma WrittenDeclaration(u: Update)
    requires u.Sound() && (u.prev.Some? ==> u.prev.value.inv.spec != u.next.inv.spec)
    ensures var f := FullRun(u.Plan(), u.f0);
      if u.next.inv.spec == Spec1_1
      then Get(f, "0=ocfl_object_1.1") == Some("ocfl_object_1.1\n")
           && (u.prev.Some? ==> Get(f, "0=ocfl_object_1.0") == None)
      else Get(f, "0=ocfl_object_1.0") == Some("ocfl_object_1.0\n")
           && (u.prev.Some? ==> Get(f, "0=ocfl_object_1.1") == None)
  {
    Declarations();
    FullRunIsUpdated(u);
  }

  // ---------------------------------------------------------------- reverts

  /** Reverting a first version restores the empty object, after any torn writes and removals. */
  lemma FirstUpdateReverts(u: Update, faults: Faults, t: seq<State>, a: nat, b: nat)
    requires u.Sound() && u.prev.None?
    requires Run(u.Plan(), faults, u.f0, t) && RevertCall(u.Plan(), t, a, b) && t[b].outcome == Success
    ensures t[b].files == map[] && NoneDone(t[b].done)
  {
    PlanIsWellFormed(u.next, u.prev, u.content, u.source, u.f0);
    StepAt(u.next, u.prev, u.content, u.source, 0);
    forall p ensures Restores(u.Plan(), 0, p) { EffectOne(RemoveAll("."), p); }
    FirstVersionRevertRestores(u.Plan(), faults, u.f0, t, a, b);
  }

  /**
   With all-or-nothing operations, and an unchanged algorithm, a nil Revert restores the object whatever was called
   before.
   */
  lemma UpdateReverts(u: Update, t: seq<State>, a: nat, b: nat)
    requires u.Sound() && !AlgChanged(u.next, u.prev)
    requires Run(u.Plan(), Faults(false, false), u.f0, t) && RevertCall(u.Plan(), t, a, b) && t[b].outcome == Success
    ensures t[b].files == u.f0 && NoneDone(t[b].done)
  {
    PlanIsWellFormed(u.next, u.prev, u.content, u.source, u.f0);
    UnchangedIsAtomic(u);
    AtomicRevertRestores(u.Plan(), u.f0, t, a, b);
  }

  /** Step i did not complete, and a target of it in the object root is not as it was. */
  predicate LeftBehind(u: Update, s: State, i: nat, p: Path)
    requires |s.done| == |u.Plan()|
  {
    && i < |u.Plan()| && !s.done[i]
    && (Some(p) == Target(u.next, u.prev, u.content, i)
        || (i == |u.Plan()| - 1 && AlgChanged(u.next, u.prev) && p == Sidecar(u.prev.value.inv.alg)))
    && !InVersion(u.next.inv.head, p)
    && Get(s.files, p) != Get(u.f0, p)
  }

  /**
   When runs and reverts may leave torn files, a nil Revert of a later version restores the object exactly
   when no incomplete step has left a changed declaration, root inventory or root sidecar behind.
   */
  lemma TornUpdateReverts(u: Update, faults: Faults, t: seq<State>, a: nat, b: nat)
    requires u.Sound() && u.prev.Some?
    requires Run(u.Plan(), faults, u.f0, t) && RevertCall(u.Plan(), t, a, b) && t[b].outcome == Success
    ensures |t[a].done| == |u.Plan()|
    ensures t[b].files == u.f0 <==> forall i, p :: !LeftBehind(u, t[a], i, p)
  {
    var plan := u.Plan();
    PlanIsWellFormed(u.next, u.prev, u.content, u.source, u.f0);
    RevertRestores(plan, faults, u.f0, t, a, b);
    StepAt(u.next, u.prev, u.content, u.source, 0);
    if NoResidue(plan, u.f0, t[a]) {
      forall i: nat, p ensures !LeftBehind(u, t[a], i, p) {
        if i < |plan| {
          HitsAt(u.next, u.prev, u.content, u.source, i, p);
          SweptIsVersion(u, p);
          if Hits(plan, i, p) { TargetPlaces(u, i, p); }
        }
      }
    }
    if forall i, p :: !LeftBehind(u, t[a], i, p) {
      forall i: nat, p | i < |plan| && !t[a].done[i] && Hits(plan, i, p) && !InSweptDir(plan, p)
        ensures Get(t[a].files, p) == Get(u.f0, p)
      {
        assert !LeftBehind(u, t[a], i, p);
        HitsAt(u.next, u.prev, u.content, u.source, i, p);
        SweptIsVersion(u, p);
      }
    }
  }

  /**
   A nil Revert of a later version removes all new files, whatever tore before, and keeps what a failed commit left.
   */
  lemma AfterRevert(u: Update, faults: Faults, t: seq<State>, a: nat, b: nat)
    requires u.Sound() && u.prev.Some?
    requires Run(u.Plan(), faults, u.f0, t) && RevertCall(u.Plan(), t, a, b) && t[b].outcome == Success
    ensures forall p, data :: IsNewFile(u, p, data) ==> Get(t[b].files, p) == None
    ensures Get(t[b].files, INVENTORY) == Get(u.f0, INVENTORY) <==> !LeftInventory(u, t[a])
  {
    var plan := u.Plan();
    PlanIsWellFormed(u.next, u.prev, u.content, u.source, u.f0);
    forall p, data | IsNewFile(u, p, data) ensures Get(t[b].files, p) == None {
      NewFileGone(u, faults, t, a, b, p, data);
    }
    CommitStep(u);
    SweptIsVersion(u, INVENTORY);
    RevertedFileAt(plan, faults, u.f0, t, a, b, INVENTORY);
    assert Hits(plan, u.Commit(), INVENTORY);
  }

  /** The root inventory's step did not complete, and the root inventory is not the original one. */
  ghost predicate LeftInventory(u: Update, s: State) {
    u.Commit() < |s.done| && !s.done[u.Commit()] && Get(s.files, INVENTORY) != Get(u.f0, INVENTORY)
  }

  lemma NewFileGone(u: Update, faults: Faults, t: seq<State>, a: nat, b: nat, p: Path, data: Bytes)
    requires u.Sound() && u.prev.Some? && IsNewFile(u, p, data)
    requires Run(u.Plan(), faults, u.f0, t) && RevertCall(u.Plan(), t, a, b) && t[b].outcome == Success
    ensures Get(t[b].files, p) == None
  {
    PlanIsWellFormed(u.next, u.prev, u.content, u.source, u.f0);
    NamesApart(u.next, u.prev, u.next.inv.alg, "", p);
    assert InVersion(u.next.inv.head, p);
    assert Under(VNums.String(u.next.inv.head), p);
    SweptIsVersion(u, p);
    RevertedFileAt(u.Plan(), faults, u.f0, t, a, b, p);
  }

  /** The root inventory is the original one, or all new files are in place. */
  ghost predicate Committed(u: Update, f: Files) {
    Get(f, INVENTORY) != Get(u.f0, INVENTORY) ==> forall p, data :: IsNewFile(u, p, data) ==> Get(f, p) == Some(data)
  }

  /**
   Commit order after a nil Revert of a later version, whatever tore before: it holds exactly when no failed
   step had left a changed root inventory behind.
   */
  lemma RevertedCommitOrder(u: Update, faults: Faults, t: seq<State>, a: nat, b: nat)
    requires u.Sound() && u.prev.Some?
    requires Run(u.Plan(), faults, u.f0, t) && RevertCall(u.Plan(), t, a, b) && t[b].outcome == Success
    ensures Committed(u, t[b].files) <==> !LeftInventory(u, t[a])
  {
    AfterRevert(u, faults, t, a, b);
    assert IsNewFile(u, InDir(u.next.inv.head, INVENTORY), u.next.bytes);
  }

  /**
   A torn root inventory is left by some run that ends in a nil Revert: only completed steps are reverted. It is
   then there without the new files.
   */
  lemma TornInventoryStays(u: Update, junk: Bytes)
    requires u.Sound() && u.prev.Some? && junk != u.prev.value.bytes
    ensures exists t: seq<State>, a: nat, b: nat ::
      && Run(u.Plan(), TORN_RUN, u.f0, t) && RevertCall(u.Plan(), t, a, b) && t[b].outcome == Success
      && t[b].files != u.f0 && Get(t[b].files, INVENTORY) == Some(junk) && !Committed(u, t[b].files)
  {
    PlanIsWellFormed(u.next, u.prev, u.content, u.source, u.f0);
    StepAt(u.next, u.prev, u.content, u.source, u.Commit());
    SweptIsVersion(u, INVENTORY);
    TornRunSpoilsRevert(u.Plan(), u.f0, u.Commit(), INVENTORY, u.next.bytes, Some(junk));
    var t: seq<State>, a: nat, b: nat :| Run(u.Plan(), TORN_RUN, u.f0, t) && RevertCall(u.Plan(), t, a, b)
      && t[b].outcome == Success && t[b].files != u.f0 && Get(t[b].files, INVENTORY) == Some(junk);
    AfterRevert(u, TORN_RUN, t, a, b);
    assert IsNewFile(u, InDir(u.next.inv.head, INVENTORY), u.next.bytes);
    assert !Committed(u, t[b].files);
  }

  /**
   In every update there is a run in which reverting the commit fails and tears the root inventory (in a first
   version: removes it), and the next Apply returns nil and leaves it so.
   */
  lemma TornRevertStays(u: Update, left: Option<Bytes>)
    requires u.Sound() && left != Some(u.next.bytes) && (u.prev.None? ==> left == None)
    ensures exists t: seq<State>, a: nat, b: nat ::
      && Run(u.Plan(), TORN_REVERT, u.f0, t) && ApplyCall(u.Plan(), t, a, b) && t[b].outcome == Success
      && t[b].files != FullRun(u.Plan(), u.f0) && Get(t[b].files, INVENTORY) == left
  {
    PlanIsWellFormed(u.next, u.prev, u.content, u.source, u.f0);
    StepAt(u.next, u.prev, u.content, u.source, u.Commit());
    StepAt(u.next, u.prev, u.content, u.source, u.Commit() + 1);
    TornRevertSpoilsApply(u.Plan(), u.f0, u.Commit(), INVENTORY, u.next.bytes, left);
  }

  /**
   For every new file there are two processes, without any fault: the first dies after writing it, the second loads
   the plan as it was first saved, and its Revert returns nil and leaves the file.
   */
  lemma StaleContentStays(u: Update, p: Path, data: Bytes)
    requires u.Sound() && IsNewFile(u, p, data)
    ensures exists ts: seq<seq<State>>, b: nat ::
      && Crashes.Lives(u.Plan(), Crashes.NO_FAULTS, u.f0, ts) && |ts| == 2 && RevertCall(u.Plan(), ts[1], 0, b)
      && ts[1][b].outcome == Success && Get(ts[1][b].files, p) == Some(data) && ts[1][b].files != u.f0
  {
    PlanIsWellFormed(u.next, u.prev, u.content, u.source, u.f0);
    NamesApart(u.next, u.prev, u.next.inv.alg, "", p);
    assert InVersion(u.next.inv.head, p) && Under(VNums.String(u.next.inv.head), p);
    var i := NewFileStep(u, p, data);
    Crashes.StaleFlagsSpoilRevert(u.Plan(), u.f0, i, p, Some(data));
  }

  /** In an update of an existing object only the new version directory is swept. */
  lemma SweptIsVersion(u: Update, p: Path)
    requires u.Sound() && u.prev.Some?
    ensures InSweptDir(u.Plan(), p) <==> Under(VNums.String(u.next.inv.head), p)
  {
    var plan, d := u.Plan(), Decls(u.next, u.prev);
    forall i: nat | i < |plan| && Sweeps(plan, i) ensures i == 0 || i == d + 1 {
      StepAt(u.next, u.prev, u.content, u.source, i);
    }
    StepAt(u.next, u.prev, u.content, u.source, 0);
    StepAt(u.next, u.prev, u.content, u.source, d + 1);
    EffectOne(RemoveAll(VNums.String(u.next.inv.head)), p);
    assert Effect(plan[0].revert, p) == None;
    if Under(VNums.String(u.next.inv.head), p) { assert Sweeps(plan, d + 1) && Restores(plan, d + 1, p); }
  }

  /** A target is in the version directory, or outside of what is swept. */
  lemma TargetPlaces(u: Update, i: nat, p: Path)
    requires u.Sound() && i < |u.Plan()| && Hits(u.Plan(), i, p)
    ensures Under(VNums.String(u.next.inv.head), p) ==> InVersion(u.next.inv.head, p)
  {
    HitsAt(u.next, u.prev, u.content, u.source, i, p);
    StepAt(u.next, u.prev, u.content, u.source, 0);
    StringHasNoSlash(u.next.inv.head);
    var head := VNums.String(u.next.inv.head);
    NamesApart(u.next, u.prev, if u.prev.Some? then u.prev.value.inv.alg else "", u.next.inv.alg, p);
    NamesApart(u.next, u.prev, u.next.inv.alg, "", p);
    assert head[0] == 'v' && INVENTORY[0] == 'i' && Sidecar(u.next.inv.alg)[0] == 'i';
    assert u.prev.Some? ==> Sidecar(u.prev.value.inv.alg)[0] == 'i';
  }
}
