/** The steps of the update plan from an object's inventory to its next one. */
module PlanSteps {
  import opened Values
  import opened Store
  import opened PlanMachine
  import opened Inventories
  import opened BuiltInventories
  import DigestMaps
  import Strings
  import VNums

  /** An inventory with the contents of its inventory.json and their digest. */
  datatype StoredInventory = StoredInventory(inv: Inventory, bytes: Bytes, digest: string)

  const INVENTORY := "inventory.json"

  /** The spec of the next inventory is lower than the current one, or is none at all. */
  predicate LowerSpec(next: Spec, current: Spec) {
    next.NoSpec? || (next.Spec1_0? && current.Spec1_1?)
  }

  function SpecText(s: Spec): string {
    match s case NoSpec => "" case Spec1_0 => "1.0" case Spec1_1 => "1.1"
  }

  function DeclName(s: Spec): Path { "0=ocfl_object_" + SpecText(s) }

  function DeclBody(s: Spec): Bytes { "ocfl_object_" + SpecText(s) + "\n" }

  function Sidecar(alg: string): Path { INVENTORY + "." + alg }

  function SidecarBody(digest: string): Bytes { digest + " " + INVENTORY + "\n" }

  function InDir(head: VNum, name: Path): Path { VNums.String(head) + "/" + name }

  // ---------------------------------------------------------------- the steps

  function RootStep(head: VNum): Step {
    Step("object root ", "", [], if head.num == 1 then [RemoveAll(".")] else [], false)
  }

  function DeclarationSteps(newSpec: Spec, oldSpec: Spec): Plan {
    if newSpec == oldSpec then []
    else
      [Step("write " + DeclName(newSpec), "", [Write(DeclName(newSpec), DeclBody(newSpec))],
            [Remove(DeclName(newSpec))], false)]
      + if oldSpec.NoSpec? then []
        else [Step("remove " + DeclName(oldSpec), "", [Remove(DeclName(oldSpec))],
                  [Write(DeclName(oldSpec), DeclBody(oldSpec))], false)]
  }

  function VersionDirStep(head: VNum): Step {
    Step("version directory " + VNums.String(head), "", [], [RemoveAll(VNums.String(head))], false)
  }

  function ContentStep(dst: Path, digest: string, source: string -> Bytes): Step {
    Step("copy " + dst, digest, [Write(dst, source(digest))], [Remove(dst)], true)
  }

  function ContentSteps(content: seq<(Path, string)>, source: string -> Bytes): Plan {
    seq(|content|, i requires 0 <= i < |content| => ContentStep(content[i].0, content[i].1, source))
  }

  function WriteNewStep(path: Path, data: Bytes): Step {
    Step("write " + path, "", [Write(path, data)], [Remove(path)], false)
  }

  function RootInventoryStep(head: VNum, newBytes: Bytes, oldBytes: Bytes): Step {
    Step("write " + INVENTORY, "", [Write(INVENTORY, newBytes)],
         if head.num == 1 then [Remove(INVENTORY)] else [Write(INVENTORY, oldBytes)], false)
  }

  function RootSidecarStep(head: VNum, newDigest: string, newAlg: string, oldDigest: string, oldAlg: string): Step {
    var changed := oldAlg != "" && oldAlg != newAlg;
    Step("write " + Sidecar(newAlg), "",
         [Write(Sidecar(newAlg), SidecarBody(newDigest))] + (if changed then [Remove(Sidecar(oldAlg))] else []),
         if head.num == 1 then [Remove(Sidecar(newAlg))]
         else [Write(Sidecar(oldAlg), SidecarBody(oldDigest))] + (if changed then [Remove(Sidecar(newAlg))] else []),
         false)
  }

  function InventorySteps(next: StoredInventory, prev: Option<StoredInventory>): Plan {
    var head, alg := next.inv.head, next.inv.alg;
    [ WriteNewStep(InDir(head, INVENTORY), next.bytes),
      WriteNewStep(InDir(head, Sidecar(alg)), SidecarBody(next.digest)),
      RootInventoryStep(head, next.bytes, if prev.Some? then prev.value.bytes else ""),
      RootSidecarStep(head, next.digest, alg, if prev.Some? then prev.value.digest else "",
                      if prev.Some? then prev.value.inv.alg else "") ]
  }

  function OldSpec(prev: Option<StoredInventory>): Spec {
    if prev.Some? then prev.value.inv.spec else NoSpec
  }

  function PlanOf(next: StoredInventory, prev: Option<StoredInventory>, content: seq<(Path, string)>,
                  source: string -> Bytes): Plan {
    [RootStep(next.inv.head)] + DeclarationSteps(next.inv.spec, OldSpec(prev)) + [VersionDirStep(next.inv.head)]
    + ContentSteps(content, source) + InventorySteps(next, prev)
  }

  predicate PlanError(next: Inventory, prev: Option<StoredInventory>) {
    || (prev.Some? && prev.value.inv.id != next.id)
    || LowerSpec(next.spec, OldSpec(prev))
    || next.head.num != (if prev.Some? then prev.value.inv.head.num else 0) + 1
  }

  /**
   The plan for two stored inventories. The manifest and the set of new files are visited in any order,
   but the steps are a function of the inventories.
   */
  method NewPlanSteps(next: StoredInventory, prev: Option<StoredInventory>,
                      source: string -> Bytes) returns (r: Result<Plan>)
    ensures r.Err? <==> PlanError(next.inv, prev)
    ensures r.Err? <==>
      || (prev.Some? && prev.value.inv.id != next.inv.id)
      || next.inv.spec == NoSpec || (prev.Some? && prev.value.inv.spec == Spec1_1 && next.inv.spec == Spec1_0)
      || next.inv.head.num != (if prev.Some? then prev.value.inv.head.num + 1 else 1)
    ensures r.Ok? && ValidInventory(next.inv) ==>
      forall pm, content :: ContentOf(next.inv.manifest, next.inv.head, pm) && Listing(pm, content)
        ==> r.value == PlanOf(next, prev, content, source)
    ensures r.Ok? ==> exists pm, content ::
      ContentOf(next.inv.manifest, next.inv.head, pm) && Listing(pm, content)
        && r.value == PlanOf(next, prev, content, source)
  {
    var newFiles := VersionContent(next.inv, next.inv.head);
    if prev.Some? && prev.value.inv.id != next.inv.id { return Err("inventory ID does not match"); }
    if LowerSpec(next.inv.spec, OldSpec(prev)) { return Err("OCFL spec is lower"); }
    var oldNum := if prev.Some? then prev.value.inv.head.num else 0;
    if next.inv.head.num != oldNum + 1 { return Err("head is not incremented by 1"); }
    var listed := SortedPaths(newFiles);
    ghost var valid := ValidInventory(next.inv);
    if valid {
      forall pm, content | ContentOf(next.inv.manifest, next.inv.head, pm) && Listing(pm, content)
        ensures content == listed
      {
        ContentUnique(next.inv.manifest, next.inv.head, pm, newFiles);
        ListingUnique(pm, content, listed);
      }
    }
    return Ok(PlanOf(next, prev, listed, source));
  }

  /** The names and digests of the steps, which is what is saved of a plan besides the flags. */
  predicate SameSteps(a: Plan, b: Plan) {
    |a| == |b| && forall i :: 0 <= i < |a| ==> a[i].name == b[i].name && a[i].digest == b[i].digest
  }

  /** The steps of the plan from prev to next, with content from some source. */
  ghost predicate IsPlanFor(plan: Plan, next: StoredInventory, prev: Option<StoredInventory>) {
    exists pm, content, source: string -> Bytes ::
      ContentOf(next.inv.manifest, next.inv.head, pm) && Listing(pm, content)
        && plan == PlanOf(next, prev, content, source)
  }

  /** Loading a saved plan rebuilds its steps and compares them; a plan made for the same inventories always passes. */
  method PrepareSteps(saved: Plan, next: StoredInventory, prev: Option<StoredInventory>,
                      source: string -> Bytes) returns (r: Result<Plan>)
    ensures r.Ok? ==> SameSteps(saved, r.value) && IsPlanFor(r.value, next, prev)
    ensures r.Err? ==> PlanError(next.inv, prev)
                       || exists plan :: IsPlanFor(plan, next, prev) && !SameSteps(plan, saved)
    ensures ValidInventory(next.inv) && !PlanError(next.inv, prev) && IsPlanFor(saved, next, prev) ==> r.Ok?
  {
    var newSteps := NewPlanSteps(next, prev, source);
    if newSteps.Err? { return newSteps; }
    assert IsPlanFor(newSteps.value, next, prev);
    ghost var same := ValidInventory(next.inv) && IsPlanFor(saved, next, prev);
    if same { OnePlan(newSteps.value, saved, next, prev); }
    if !SameSteps(newSteps.value, saved) { return Err("previous update log doesn't reflect current update plan"); }
    return newSteps;
  }

  /** Two plans for the same inventories have the same steps. */
  lemma OnePlan(a: Plan, b: Plan, next: StoredInventory, prev: Option<StoredInventory>)
    requires DigestMaps.DistinctPaths(next.inv.manifest) && IsPlanFor(a, next, prev) && IsPlanFor(b, next, prev)
    ensures SameSteps(a, b)
  {
    var pm, content, source: string -> Bytes :|
      ContentOf(next.inv.manifest, next.inv.head, pm) && Listing(pm, content)
        && a == PlanOf(next, prev, content, source);
    var pm', content', source': string -> Bytes :|
      ContentOf(next.inv.manifest, next.inv.head, pm') && Listing(pm', content')
        && b == PlanOf(next, prev, content', source');
    ContentUnique(next.inv.manifest, next.inv.head, pm, pm');
    ListingUnique(pm, content, content');
    SourceIsNotSaved(next, prev, content, source, source');
  }

  lemma SourceIsNotSaved(next: StoredInventory, prev: Option<StoredInventory>, content: seq<(Path, string)>,
                         a: string -> Bytes, b: string -> Bytes)
    ensures SameSteps(PlanOf(next, prev, content, a), PlanOf(next, prev, content, b))
  {
  }
}
