/** The plans that are built for an object meet what the theorems on update plans ask for. */
module PlanSoundness {
  import opened Values
  import opened Store
  import opened PlanMachine
  import opened PlanSteps
  import opened Inventories
  import opened BuiltInventories
  import Strings
  import VNums

  /** The new files are distinct, in the new version directory, and none is one of its inventory files. */
  ghost predicate GoodContent(next: StoredInventory, content: seq<(Path, string)>) {
    && Strings.Distinct(Names(content))
    && forall i :: 0 <= i < |content| ==> var p := content[i].0;
         && InVersion(next.inv.head, p)
         && p != InDir(next.inv.head, INVENTORY) && p != InDir(next.inv.head, Sidecar(next.inv.alg))
  }

  /** next is a next inventory for prev. */
  predicate NextInventory(next: StoredInventory, prev: Option<StoredInventory>) {
    && !PlanError(next.inv, prev)
    && !next.inv.spec.NoSpec?
    && (prev.Some? ==> prev.value.inv.head.num > 0 && !prev.value.inv.spec.NoSpec?)
  }

  /** f0 is what the object has before the update: nothing, or the old declaration and root inventory. */
  ghost predicate OriginalObject(next: StoredInventory, prev: Option<StoredInventory>, f0: Files) {
    if prev.None? then f0 == map[]
    else
      && Get(f0, INVENTORY) == Some(prev.value.bytes)
      && (forall p :: Under(VNums.String(next.inv.head), p) ==> Get(f0, p) == None)
      && (next.inv.spec != prev.value.inv.spec ==>
            && Get(f0, DeclName(next.inv.spec)) == None
            && Get(f0, DeclName(prev.value.inv.spec)) == Some(DeclBody(prev.value.inv.spec)))
  }

  // ---------------------------------------------------------------- effects of short actions

  lemma EffectOne(op: Op, p: Path)
    ensures Effect([op], p) == if Touches(op, p) then Some(if op.Write? then Some(op.data) else None) else None
    ensures Effect([], p) == None
  {
    assert [op][..0] == [];
  }

  lemma EffectTwo(a: Op, b: Op, p: Path)
    ensures Effect([a] + [b], p) == if Touches(b, p) then Some(if b.Write? then Some(b.data) else None)
            else Effect([a], p)
  {
    assert ([a] + [b])[..1] == [a];
  }

  // ---------------------------------------------------------------- which step is where

  /** The number of declaration steps. */
  function Decls(next: StoredInventory, prev: Option<StoredInventory>): nat {
    |DeclarationSteps(next.inv.spec, OldSpec(prev))|
  }

  lemma SegmentAt(a: Plan, b: Plan, c: Plan, i: nat)
    requires i < |a + b + c|
    ensures (a + b + c)[i] == if i < |a| then a[i] else if i < |a| + |b| then b[i - |a|] else c[i - |a| - |b|]
  {
  }

  lemma StepAt(next: StoredInventory, prev: Option<StoredInventory>, content: seq<(Path, string)>,
               source: string -> Bytes, i: nat)
    ensures var plan, d, c := PlanOf(next, prev, content, source), Decls(next, prev), |content|;
      |plan| == d + c + 6 && (i < |plan| ==>
        plan[i] ==
          if i == 0 then RootStep(next.inv.head)
          else if i <= d then DeclarationSteps(next.inv.spec, OldSpec(prev))[i - 1]
          else if i == d + 1 then VersionDirStep(next.inv.head)
          else if i < d + 2 + c then ContentStep(content[i - d - 2].0, content[i - d - 2].1, source)
          else InventorySteps(next, prev)[i - d - 2 - c])
  {
    var decls := DeclarationSteps(next.inv.spec, OldSpec(prev));
    var first := [RootStep(next.inv.head)] + decls + [VersionDirStep(next.inv.head)];
    var copies, last := ContentSteps(content, source), InventorySteps(next, prev);
    assert PlanOf(next, prev, content, source) == first + copies + last;
    if i < |first + copies + last| {
      SegmentAt(first, copies, last, i);
      if i < |first| { SegmentAt([RootStep(next.inv.head)], decls, [VersionDirStep(next.inv.head)], i); }
    }
  }

  // ---------------------------------------------------------------- what a saved plan tells

  /** Only the copy steps may run concurrently. */
  lemma ConcurrentSteps(next: StoredInventory, prev: Option<StoredInventory>, content: seq<(Path, string)>,
                        source: string -> Bytes, i: nat)
    requires i < |PlanOf(next, prev, content, source)|
    ensures var d, plan := Decls(next, prev), PlanOf(next, prev, content, source);
      && (plan[i].content <==> d + 2 <= i < d + 2 + |content|)
      && (plan[i].content ==> plan[i].name == "copy " + content[i - d - 2].0 && plan[i].digest == content[i - d - 2].1)
  {
    StepAt(next, prev, content, source, i);
  }

  /** The first letter of a step's name tells the declaration steps from the version directory step. */
  lemma FirstLetters(next: StoredInventory, prev: Option<StoredInventory>, content: seq<(Path, string)>,
                     source: string -> Bytes, i: nat)
    requires 0 < i <= Decls(next, prev) + 1
    ensures var plan := PlanOf(next, prev, content, source);
      i < |plan| && plan[i].name != "" && (plan[i].name[0] == 'v' <==> i == Decls(next, prev) + 1)
  {
    StepAt(next, prev, content, source, i);
  }

  lemma SameDecls(next: StoredInventory, prev: Option<StoredInventory>, content: seq<(Path, string)>,
                  next': StoredInventory, prev': Option<StoredInventory>, content': seq<(Path, string)>,
                  source: string -> Bytes, source': string -> Bytes)
    requires SameSteps(PlanOf(next, prev, content, source), PlanOf(next', prev', content', source'))
    ensures Decls(next, prev) == Decls(next', prev') && |content| == |content'|
  {
    var d, d' := Decls(next, prev), Decls(next', prev');
    StepAt(next, prev, content, source, 0);
    StepAt(next', prev', content', source', 0);
    FirstLetters(next, prev, content, source, if d <= d' then d + 1 else d' + 1);
    FirstLetters(next', prev', content', source', if d <= d' then d + 1 else d' + 1);
  }

  /**
   The names and digests of the steps tell the version, its new files and their digests, and the algorithm: a saved
   plan is loaded only with inventories that agree in these.
   */
  lemma SavedPlanTells(next: StoredInventory, prev: Option<StoredInventory>, content: seq<(Path, string)>,
                       next': StoredInventory, prev': Option<StoredInventory>, content': seq<(Path, string)>,
                       source: string -> Bytes, source': string -> Bytes)
    requires SameSteps(PlanOf(next, prev, content, source), PlanOf(next', prev', content', source'))
    ensures VNums.String(next.inv.head) == VNums.String(next'.inv.head) && next.inv.alg == next'.inv.alg
    ensures content == content'
  {
    SameDecls(next, prev, content, next', prev', content', source, source');
    var d, n := Decls(next, prev), |content|;
    var plan, plan' := PlanOf(next, prev, content, source), PlanOf(next', prev', content', source');
    SameStepAt(next, prev, content, next', prev', content', source, source', d + 1);
    AfterPrefix("version directory ", VNums.String(next.inv.head), VNums.String(next'.inv.head));
    SameStepAt(next, prev, content, next', prev', content', source, source', d + n + 5);
    AfterPrefix("write ", Sidecar(next.inv.alg), Sidecar(next'.inv.alg));
    AfterPrefix(INVENTORY + ".", next.inv.alg, next'.inv.alg);
    forall i | 0 <= i < n ensures content[i] == content'[i] {
      SameStepAt(next, prev, content, next', prev', content', source, source', d + 2 + i);
      AfterPrefix("copy ", content[i].0, content'[i].0);
    }
  }

  lemma SameStepAt(next: StoredInventory, prev: Option<StoredInventory>, content: seq<(Path, string)>,
                   next': StoredInventory, prev': Option<StoredInventory>, content': seq<(Path, string)>,
                   source: string -> Bytes, source': string -> Bytes, i: nat)
    requires SameSteps(PlanOf(next, prev, content, source), PlanOf(next', prev', content', source'))
    requires Decls(next, prev) == Decls(next', prev') && |content| == |content'|
    ensures var d, n := Decls(next, prev), |content|;
      && (i == d + 1 ==>
            "version directory " + VNums.String(next.inv.head) == "version directory " + VNums.String(next'.inv.head))
      && (d + 2 <= i < d + 2 + n ==> "copy " + content[i - d - 2].0 == "copy " + content'[i - d - 2].0
                                     && content[i - d - 2].1 == content'[i - d - 2].1)
      && (i == d + n + 5 ==> "write " + Sidecar(next.inv.alg) == "write " + Sidecar(next'.inv.alg))
  {
    StepAt(next, prev, content, source, i);
    StepAt(next', prev', content', source', i);
  }

  lemma AfterPrefix(prefix: string, a: string, b: string)
    requires prefix + a == prefix + b
    ensures a == b
  {
    assert (prefix + a)[|prefix|..] == a && (prefix + b)[|prefix|..] == b;
  }

  // ---------------------------------------------------------------- targets

  /** The path that step i writes or removes first; the other target, if any, is the old root sidecar. */
  function Target(next: StoredInventory, prev: Option<StoredInventory>, content: seq<(Path, string)>,
                  i: nat): Option<Path>
    requires i < Decls(next, prev) + |content| + 6
  {
    var d, c, head := Decls(next, prev), |content|, next.inv.head;
    if i == 0 || i == d + 1 then None
    else if i <= d then Some(DeclName(if i == 1 then next.inv.spec else OldSpec(prev)))
    else if i < d + 2 + c then Some(content[i - d - 2].0)
    else if i == d + 2 + c then Some(InDir(head, INVENTORY))
    else if i == d + 3 + c then Some(InDir(head, Sidecar(next.inv.alg)))
    else if i == d + 4 + c then Some(INVENTORY)
    else Some(Sidecar(next.inv.alg))
  }

  predicate AlgChanged(next: StoredInventory, prev: Option<StoredInventory>) {
    prev.Some? && prev.value.inv.alg != "" && prev.value.inv.alg != next.inv.alg
  }

  lemma DeclarationHits(newSpec: Spec, oldSpec: Spec, k: nat, p: Path)
    requires k < |DeclarationSteps(newSpec, oldSpec)|
    ensures Effect(DeclarationSteps(newSpec, oldSpec)[k].run, p).Some? <==>
            p == DeclName(if k == 0 then newSpec else oldSpec)
  {
    EffectOne(DeclarationSteps(newSpec, oldSpec)[k].run[0], p);
  }

  lemma ContentHits(dst: Path, digest: string, source: string -> Bytes, p: Path)
    ensures Effect(ContentStep(dst, digest, source).run, p).Some? <==> p == dst
  {
    EffectOne(Write(dst, source(digest)), p);
  }

  lemma WriteNewHits(path: Path, data: Bytes, p: Path)
    ensures Effect(WriteNewStep(path, data).run, p).Some? <==> p == path
  {
    EffectOne(Write(path, data), p);
  }

  lemma RootInventoryHits(head: VNum, newBytes: Bytes, oldBytes: Bytes, p: Path)
    ensures Effect(RootInventoryStep(head, newBytes, oldBytes).run, p).Some? <==> p == INVENTORY
  {
    EffectOne(Write(INVENTORY, newBytes), p);
  }

  lemma RootSidecarHits(head: VNum, newDigest: string, newAlg: string, oldDigest: string, oldAlg: string, p: Path)
    ensures Effect(RootSidecarStep(head, newDigest, newAlg, oldDigest, oldAlg).run, p).Some? <==>
            p == Sidecar(newAlg) || (oldAlg != "" && oldAlg != newAlg && p == Sidecar(oldAlg))
  {
    var w := Write(Sidecar(newAlg), SidecarBody(newDigest));
    EffectOne(w, p);
    if oldAlg != "" && oldAlg != newAlg {
      EffectTwo(w, Remove(Sidecar(oldAlg)), p);
    } else {
      assert RootSidecarStep(head, newDigest, newAlg, oldDigest, oldAlg).run == [w];
    }
  }

  lemma InventoryHits(next: StoredInventory, prev: Option<StoredInventory>, k: nat, p: Path)
    requires k < 4
    ensures Effect(InventorySteps(next, prev)[k].run, p).Some? <==>
            || p == (if k == 0 then InDir(next.inv.head, INVENTORY)
                     else if k == 1 then InDir(next.inv.head, Sidecar(next.inv.alg))
                     else if k == 2 then INVENTORY
                     else Sidecar(next.inv.alg))
            || (k == 3 && AlgChanged(next, prev) && p == Sidecar(prev.value.inv.alg))
  {
    if k == 0 {
      WriteNewHits(InDir(next.inv.head, INVENTORY), next.bytes, p);
    } else if k == 1 {
      WriteNewHits(InDir(next.inv.head, Sidecar(next.inv.alg)), SidecarBody(next.digest), p);
    } else if k == 2 {
      RootInventoryHits(next.inv.head, next.bytes, if prev.Some? then prev.value.bytes else "", p);
    } else {
      RootSidecarHits(next.inv.head, next.digest, next.inv.alg, if prev.Some? then prev.value.digest else "",
                      if prev.Some? then prev.value.inv.alg else "", p);
    }
  }

  lemma HitsAt(next: StoredInventory, prev: Option<StoredInventory>, content: seq<(Path, string)>,
               source: string -> Bytes, i: nat, p: Path)
    requires i < Decls(next, prev) + |content| + 6
    ensures var plan := PlanOf(next, prev, content, source);
      i < |plan| && (Hits(plan, i, p) <==>
        Some(p) == Target(next, prev, content, i)
        || (i == |plan| - 1 && AlgChanged(next, prev) && p == Sidecar(prev.value.inv.alg)))
  {
    StepAt(next, prev, content, source, i);
    var d, c := Decls(next, prev), |content|;
    if 1 <= i <= d {
      DeclarationHits(next.inv.spec, OldSpec(prev), i - 1, p);
    } else if d + 2 <= i < d + 2 + c {
      ContentHits(content[i - d - 2].0, content[i - d - 2].1, source, p);
    } else if i >= d + 2 + c {
      InventoryHits(next, prev, i - d - 2 - c, p);
    }
  }

  lemma NamesApart(next: StoredInventory, prev: Option<StoredInventory>, a: string, b: string, p: Path)
    ensures Sidecar(a) == Sidecar(b) ==> a == b
    ensures Sidecar(a) != INVENTORY && InDir(next.inv.head, Sidecar(a)) != InDir(next.inv.head, INVENTORY)
    ensures InVersion(next.inv.head, InDir(next.inv.head, INVENTORY))
            && InVersion(next.inv.head, InDir(next.inv.head, Sidecar(a)))
    ensures InVersion(next.inv.head, p) ==> p != INVENTORY && p != Sidecar(a)
    ensures forall s :: DeclName(s) != INVENTORY && DeclName(s) != Sidecar(a) && !InVersion(next.inv.head, DeclName(s))
    ensures forall s :: !Under(VNums.String(next.inv.head), DeclName(s))
    ensures DeclName(Spec1_0) != DeclName(Spec1_1)
  {
    var head := VNums.String(next.inv.head);
    StringHasNoSlash(next.inv.head);
    assert Sidecar(a)[|INVENTORY| + 1..] == a && Sidecar(b)[|INVENTORY| + 1..] == b;
    assert |InDir(next.inv.head, Sidecar(a))| > |InDir(next.inv.head, INVENTORY)|;
    assert InVersion(next.inv.head, p) ==> p[0] == head[0] == 'v';
    assert INVENTORY[0] == 'i' && Sidecar(a)[0] == 'i';
    assert DeclName(Spec1_0)[|DeclName(Spec1_0)| - 1] == '0' && DeclName(Spec1_1)[|DeclName(Spec1_1)| - 1] == '1';
    forall s ensures DeclName(s)[0] == '0' && !HasPrefix(DeclName(s), head + "/") {
      assert (head + "/")[0] == 'v';
    }
  }

  /**
   The steps of the content group and of the version's own inventory work in the version directory, the others do not.
   */
  lemma TargetPlace(next: StoredInventory, prev: Option<StoredInventory>, content: seq<(Path, string)>, i: nat)
    requires GoodContent(next, content) && i < Decls(next, prev) + |content| + 6
    ensures var t, d := Target(next, prev, content, i), Decls(next, prev);
      t.Some? ==> (InVersion(next.inv.head, t.value) <==> d + 2 <= i < d + |content| + 4)
  {
    var t := Target(next, prev, content, i);
    if t.Some? { NamesApart(next, prev, next.inv.alg, "", t.value); }
  }

  lemma NewTargetsDistinct(next: StoredInventory, prev: Option<StoredInventory>, content: seq<(Path, string)>,
                           i: nat, j: nat)
    requires GoodContent(next, content)
    requires Decls(next, prev) + 2 <= i < j < Decls(next, prev) + |content| + 4
    ensures Target(next, prev, content, i) != Target(next, prev, content, j)
  {
    var d, c := Decls(next, prev), |content|;
    if j < d + 2 + c {
      assert Names(content)[i - d - 2] != Names(content)[j - d - 2];
    } else if i >= d + 2 + c {
      NamesApart(next, prev, next.inv.alg, "", "");
    }
  }

  lemma RootTargetsDistinct(next: StoredInventory, prev: Option<StoredInventory>, content: seq<(Path, string)>,
                            i: nat, j: nat)
    requires NextInventory(next, prev) && i < j < Decls(next, prev) + |content| + 6
    requires i <= Decls(next, prev) || i >= Decls(next, prev) + |content| + 4
    requires j <= Decls(next, prev) || j >= Decls(next, prev) + |content| + 4
    requires Target(next, prev, content, i).Some?
    ensures Target(next, prev, content, i) != Target(next, prev, content, j)
  {
    NamesApart(next, prev, next.inv.alg, "", "");
  }

  lemma OldSidecarApart(next: StoredInventory, prev: Option<StoredInventory>, content: seq<(Path, string)>, i: nat)
    requires GoodContent(next, content) && i < Decls(next, prev) + |content| + 6 && AlgChanged(next, prev)
    ensures Target(next, prev, content, i) != Some(Sidecar(prev.value.inv.alg))
  {
    TargetPlace(next, prev, content, i);
    NamesApart(next, prev, prev.value.inv.alg, next.inv.alg, Sidecar(prev.value.inv.alg));
  }

  lemma TargetsDistinct(next: StoredInventory, prev: Option<StoredInventory>, content: seq<(Path, string)>, i: nat,
                        j: nat)
    requires NextInventory(next, prev) && GoodContent(next, content)
    requires i < j < Decls(next, prev) + |content| + 6
    ensures Target(next, prev, content, i).Some? ==> Target(next, prev, content, i) != Target(next, prev, content, j)
  {
    var d, c := Decls(next, prev), |content|;
    TargetPlace(next, prev, content, i);
    TargetPlace(next, prev, content, j);
    if Target(next, prev, content, i).Some? && Target(next, prev, content, j).Some? {
      if d + 2 <= i && j < d + c + 4 {
        NewTargetsDistinct(next, prev, content, i, j);
      } else if !(d + 2 <= i < d + c + 4) && !(d + 2 <= j < d + c + 4) {
        RootTargetsDistinct(next, prev, content, i, j);
      }
    }
  }

  lemma PlanTargetsDisjoint(next: StoredInventory, prev: Option<StoredInventory>, content: seq<(Path, string)>,
                            source: string -> Bytes)
    requires NextInventory(next, prev) && GoodContent(next, content)
    ensures DisjointTargets(PlanOf(next, prev, content, source))
  {
    var plan := PlanOf(next, prev, content, source);
    StepAt(next, prev, content, source, 0);
    forall i: nat, j: nat, p | i < |plan| && j < |plan| && Hits(plan, i, p) && Hits(plan, j, p) ensures i == j {
      HitsAt(next, prev, content, source, i, p);
      HitsAt(next, prev, content, source, j, p);
      if i < j { TargetsDistinct(next, prev, content, i, j); }
      if j < i { TargetsDistinct(next, prev, content, j, i); }
      if AlgChanged(next, prev) {
        OldSidecarApart(next, prev, content, i);
        OldSidecarApart(next, prev, content, j);
      }
    }
  }

  // ---------------------------------------------------------------- reverts

  /** Undoes, at one path. */
  ghost predicate UndoesAt(plan: Plan, f0: Files, i: nat, p: Path)
    requires i < |plan|
  {
    && (Hits(plan, i, p) ==> Restores(plan, i, p))
    && (Restores(plan, i, p) ==>
          && Effect(plan[i].revert, p).value == Get(f0, p)
          && (Hits(plan, i, p) || (Sweeps(plan, i) && forall j: nat :: j < i ==> !Hits(plan, j, p))))
  }

  /** A step that writes or removes one path, whose revert puts back what f0 has there. */
  lemma SimpleUndoes(plan: Plan, f0: Files, i: nat, p: Path)
    requires i < |plan| && |plan[i].run| == 1 && |plan[i].revert| == 1
    requires !plan[i].run[0].RemoveAll? && !plan[i].revert[0].RemoveAll?
             && plan[i].run[0].path == plan[i].revert[0].path
    requires Get(f0, plan[i].revert[0].path) == if plan[i].revert[0].Write? then Some(plan[i].revert[0].data) else None
    ensures UndoesAt(plan, f0, i, p)
  {
    EffectOne(plan[i].run[0], p);
    EffectOne(plan[i].revert[0], p);
    assert plan[i].run == [plan[i].run[0]] && plan[i].revert == [plan[i].revert[0]];
  }

  lemma RootUndoes(next: StoredInventory, prev: Option<StoredInventory>, content: seq<(Path, string)>,
                   source: string -> Bytes, f0: Files, p: Path)
    requires NextInventory(next, prev) && OriginalObject(next, prev, f0)
    ensures UndoesAt(PlanOf(next, prev, content, source), f0, 0, p)
  {
    StepAt(next, prev, content, source, 0);
    EffectOne(RemoveAll("."), p);
  }

  lemma VersionDirUndoes(next: StoredInventory, prev: Option<StoredInventory>, content: seq<(Path, string)>,
                         source: string -> Bytes, f0: Files, p: Path)
    requires NextInventory(next, prev) && OriginalObject(next, prev, f0)
    ensures var d, plan := Decls(next, prev), PlanOf(next, prev, content, source);
      d + 1 < |plan| && UndoesAt(plan, f0, d + 1, p)
  {
    var plan, d := PlanOf(next, prev, content, source), Decls(next, prev);
    StepAt(next, prev, content, source, d + 1);
    EffectOne(RemoveAll(VNums.String(next.inv.head)), p);
    NamesApart(next, prev, next.inv.alg, "", p);
    forall j: nat | j <= d ensures Under(VNums.String(next.inv.head), p) ==> !Hits(plan, j, p) {
      HitsAt(next, prev, content, source, j, p);
    }
  }

  lemma DeclarationUndoes(next: StoredInventory, prev: Option<StoredInventory>, content: seq<(Path, string)>,
                          source: string -> Bytes, f0: Files, i: nat, p: Path)
    requires NextInventory(next, prev) && OriginalObject(next, prev, f0) && 1 <= i <= Decls(next, prev)
    ensures i < |PlanOf(next, prev, content, source)| && UndoesAt(PlanOf(next, prev, content, source), f0, i, p)
  {
    StepAt(next, prev, content, source, i);
    SimpleUndoes(PlanOf(next, prev, content, source), f0, i, p);
  }

  lemma NewFileUndoes(next: StoredInventory, prev: Option<StoredInventory>, content: seq<(Path, string)>,
                      source: string -> Bytes, f0: Files, i: nat, p: Path)
    requires OriginalObject(next, prev, f0) && GoodContent(next, content)
    requires Decls(next, prev) + 2 <= i < Decls(next, prev) + |content| + 4
    ensures i < |PlanOf(next, prev, content, source)| && UndoesAt(PlanOf(next, prev, content, source), f0, i, p)
  {
    var plan, d := PlanOf(next, prev, content, source), Decls(next, prev);
    StepAt(next, prev, content, source, i);
    NamesApart(next, prev, next.inv.alg, "", p);
    assert InVersion(next.inv.head, plan[i].run[0].path);
    SimpleUndoes(plan, f0, i, p);
  }

  lemma RootInventoryUndoes(next: StoredInventory, prev: Option<StoredInventory>, content: seq<(Path, string)>,
                            source: string -> Bytes, f0: Files, p: Path)
    requires NextInventory(next, prev) && OriginalObject(next, prev, f0)
    ensures var i := Decls(next, prev) + |content| + 4;
      i < |PlanOf(next, prev, content, source)| && UndoesAt(PlanOf(next, prev, content, source), f0, i, p)
  {
    var i := Decls(next, prev) + |content| + 4;
    StepAt(next, prev, content, source, i);
    SimpleUndoes(PlanOf(next, prev, content, source), f0, i, p);
  }

  lemma PathUndoes(next: StoredInventory, prev: Option<StoredInventory>, content: seq<(Path, string)>,
                   source: string -> Bytes, f0: Files, i: nat, p: Path)
    requires NextInventory(next, prev) && GoodContent(next, content) && OriginalObject(next, prev, f0)
    requires i < Decls(next, prev) + |content| + 5
    ensures i < |PlanOf(next, prev, content, source)| && UndoesAt(PlanOf(next, prev, content, source), f0, i, p)
  {
    var d := Decls(next, prev);
    if i == 0 {
      RootUndoes(next, prev, content, source, f0, p);
    } else if i <= d {
      DeclarationUndoes(next, prev, content, source, f0, i, p);
    } else if i == d + 1 {
      VersionDirUndoes(next, prev, content, source, f0, p);
    } else if i < d + |content| + 4 {
      NewFileUndoes(next, prev, content, source, f0, i, p);
    } else {
      RootInventoryUndoes(next, prev, content, source, f0, p);
    }
  }

  lemma RevertIsShort(next: StoredInventory, prev: Option<StoredInventory>, content: seq<(Path, string)>,
                      source: string -> Bytes, i: nat)
    requires i < Decls(next, prev) + |content| + 5
    ensures i < |PlanOf(next, prev, content, source)| && |PlanOf(next, prev, content, source)[i].revert| <= 1
  {
    StepAt(next, prev, content, source, i);
  }

  lemma PlanUndoes(next: StoredInventory, prev: Option<StoredInventory>, content: seq<(Path, string)>,
                   source: string -> Bytes, f0: Files, i: nat)
    requires NextInventory(next, prev) && GoodContent(next, content) && OriginalObject(next, prev, f0)
    requires i < Decls(next, prev) + |content| + 5
    ensures i < |PlanOf(next, prev, content, source)| && Undoes(PlanOf(next, prev, content, source), f0, i)
  {
    var plan := PlanOf(next, prev, content, source);
    RevertIsShort(next, prev, content, source, i);
    forall p ensures UndoesAt(plan, f0, i, p) {
      PathUndoes(next, prev, content, source, f0, i, p);
    }
    UndoesFromPaths(plan, f0, i);
  }

  lemma UndoesFromPaths(plan: Plan, f0: Files, i: nat)
    requires i < |plan| && |plan[i].revert| <= 1 && forall p :: UndoesAt(plan, f0, i, p)
    ensures Undoes(plan, f0, i)
  {
    forall p ensures Hits(plan, i, p) ==> Restores(plan, i, p) { assert UndoesAt(plan, f0, i, p); }
    forall p | Restores(plan, i, p)
      ensures Effect(plan[i].revert, p).value == Get(f0, p)
      ensures Hits(plan, i, p) || (Sweeps(plan, i) && forall j: nat :: j < i ==> !Hits(plan, j, p))
    {
      assert UndoesAt(plan, f0, i, p);
    }
  }

  /** Every plan for a next inventory is well formed for the object's original files. */
  lemma PlanIsWellFormed(next: StoredInventory, prev: Option<StoredInventory>, content: seq<(Path, string)>,
                         source: string -> Bytes, f0: Files)
    requires NextInventory(next, prev) && GoodContent(next, content) && OriginalObject(next, prev, f0)
    ensures WellFormed(PlanOf(next, prev, content, source), f0)
  {
    var plan := PlanOf(next, prev, content, source);
    forall i: nat ensures i < |plan| ==>
      (plan[i].content <==> Decls(next, prev) + 2 <= i < Decls(next, prev) + 2 + |content|)
    {
      StepAt(next, prev, content, source, i);
    }
    PlanTargetsDisjoint(next, prev, content, source);
    StepAt(next, prev, content, source, 0);
    forall i: nat | i < |plan| - 1 ensures Undoes(plan, f0, i) {
      PlanUndoes(next, prev, content, source, f0, i);
    }
  }
}
