/** Objects over many updates: what is stored always agrees with the inventory. */
module Objects {
  import opened Values
  import opened Store
  import opened PlanMachine
  import opened PlanFiles
  import opened PlanSteps
  import opened PlanSoundness
  import opened ObjectUpdates
  import opened Inventories
  import opened BuiltInventories
  import opened UpdatePlans
  import DigestMaps
  import History
  import VNums

  // ---------------------------------------------------------------- what is stored

  /** Every file of the manifest is stored, with the content that its digest stands for. */
  ghost predicate HasContent(manifest: DigestMaps.DigestMap, source: string -> Bytes, f: Files) {
    forall d, p :: d in manifest && p in manifest[d] ==> Get(f, p) == Some(source(DigestMaps.Lower(d)))
  }

  /** The root files of the object are those of inv, and no directory of a later version exists. */
  ghost predicate HasRoot(inv: StoredInventory, f: Files) {
    && Get(f, INVENTORY) == Some(inv.bytes)
    && Get(f, Sidecar(inv.inv.alg)) == Some(SidecarBody(inv.digest))
    && Get(f, DeclName(inv.inv.spec)) == Some(DeclBody(inv.inv.spec))
    && (forall s :: s != inv.inv.spec && !s.NoSpec? ==> Get(f, DeclName(s)) == None)
    && (forall v, p :: VNums.Valid(v) && v.num > inv.inv.head.num && Under(VNums.String(v), p) ==> Get(f, p) == None)
  }

  /** What is stored is all that an update of the object starts from. */
  lemma StoredIsOriginal(next: StoredInventory, prev: StoredInventory, f: Files)
    requires HasRoot(prev, f) && NextInventory(next, Some(prev)) && VNums.Valid(next.inv.head)
    ensures OriginalObject(next, Some(prev), f)
  {
  }

  lemma NormalContent(manifest: DigestMaps.DigestMap, source: string -> Bytes, f: Files)
    requires DigestMaps.ValidMap(manifest) && HasContent(manifest, source, f)
    ensures HasContent(DigestMaps.Norm(manifest), source, f)
  {
    forall e, p | e in DigestMaps.Norm(manifest) && p in DigestMaps.Norm(manifest)[e]
      ensures Get(f, p) == Some(source(DigestMaps.Lower(e)))
    {
      var d := DigestMaps.NormEntry(manifest, e);
    }
  }

  /** These are the names and the contents of the root files. */
  lemma RootFiles(inv: StoredInventory, f: Files)
    requires HasRoot(inv, f)
    ensures Get(f, "inventory.json") == Some(inv.bytes)
    ensures Get(f, "inventory.json." + inv.inv.alg) == Some(inv.digest + " inventory.json\n")
    ensures inv.inv.spec == Spec1_0 ==>
              Get(f, "0=ocfl_object_1.0") == Some("ocfl_object_1.0\n") && Get(f, "0=ocfl_object_1.1") == None
    ensures inv.inv.spec == Spec1_1 ==>
              Get(f, "0=ocfl_object_1.1") == Some("ocfl_object_1.1\n") && Get(f, "0=ocfl_object_1.0") == None
  {
    Declarations();
    Sidecars(inv.inv.alg, inv.digest, inv.inv.head);
  }

  // ---------------------------------------------------------------- an update keeps it so

  /** A target of the plan is in the new version directory, or not below any version directory. */
  lemma TargetIsRootOrNew(u: Update, p: Path)
    requires u.Sound() && IsTarget(u, p)
    ensures InVersion(u.next.inv.head, p) || (p != "" && p[0] != 'v')
  {
    var i: nat :| i < |u.Plan()| && Hits(u.Plan(), i, p);
    StepAt(u.next, u.prev, u.content, u.source, 0);
    HitsAt(u.next, u.prev, u.content, u.source, i, p);
    NamesApart(u.next, u.prev, u.next.inv.alg, "", p);
    RootNames();
  }

  lemma RootNames()
    ensures INVENTORY[0] != 'v' && (forall a :: Sidecar(a)[0] != 'v') && (forall s :: DeclName(s)[0] != 'v')
  {
  }

  lemma UnderOther(v: VNum, w: VNum, p: Path)
    requires VNums.Valid(v) && VNums.Valid(w) && v != w && Under(VNums.String(v), p)
    ensures p != "" && p[0] == 'v' && !InVersion(w, p)
  {
    StringHasNoSlash(v);
    assert InVersion(w, p) ==> p[|VNums.String(w)|] == '/';
    if InVersion(v, p) && InVersion(w, p) { InOneVersion(v, w, p); }
  }

  /** Files in the directory of another version are left alone. */
  lemma OtherVersionUntouched(u: Update, v: VNum, p: Path)
    requires u.Sound() && VNums.Valid(v) && VNums.Valid(u.next.inv.head) && v != u.next.inv.head
    requires Under(VNums.String(v), p)
    ensures Get(FullRun(u.Plan(), u.f0), p) == Get(u.f0, p)
  {
    UnderOther(v, u.next.inv.head, p);
    if IsTarget(u, p) { TargetIsRootOrNew(u, p); }
    FullRunMisses(u, p);
  }

  /** The update of base with v: the plan copies what is new. */
  ghost predicate Plans(base: Inventory, v: NewVersion, now: nat, u: Update) {
    && WellBuilt(base) && Suitable(base, v, now) && WithVersion(base, v, now) == Ok(u.next.inv)
    && (exists pm :: ContentOf(u.next.inv.manifest, u.next.inv.head, pm) && Listing(pm, u.content))
    && NextInventory(u.next, u.prev)
  }

  ghost predicate Updates(base: Inventory, v: NewVersion, now: nat, u: Update) {
    Plans(base, v, now, u) && OriginalObject(u.next, u.prev, u.f0)
  }

  lemma UpdatesIsSound(base: Inventory, v: NewVersion, now: nat, u: Update)
    requires Updates(base, v, now, u)
    ensures u.Sound() && WellBuilt(u.next.inv) && VNums.Valid(u.next.inv.head)
  {
    var pm :| ContentOf(u.next.inv.manifest, u.next.inv.head, pm) && Listing(pm, u.content);
    BuiltContentIsGood(base, v, now, u.next, pm, u.content);
    AddKeepsWellBuilt(base, v, now);
  }

  lemma OldFileKept(base: Inventory, u: Update, d: string, p: Path)
    requires u.Sound() && WellBuilt(base) && VNums.Valid(u.next.inv.head)
    requires VNums.Next(base.head) == Ok(u.next.inv.head) && d in base.manifest && p in base.manifest[d]
    ensures Get(FullRun(u.Plan(), u.f0), p) == Get(u.f0, p)
  {
    assert DigestMaps.HasPath(base.manifest, p);
    var w :| w in VNums.Lineage(base.head) && InVersion(w, p);
    LineageValid(base.head);
    LineageNext(base.head, u.next.inv.head);
    OtherVersionUntouched(u, w, p);
  }

  lemma NewFileStored(u: Update, pm: DigestMaps.PathMap, p: Path)
    requires u.Sound() && Listing(pm, u.content) && p in pm
    ensures Get(FullRun(u.Plan(), u.f0), p) == Some(u.source(pm[p]))
  {
    var i :| 0 <= i < |u.content| && Names(u.content)[i] == p;
    assert u.content[i].0 == p && u.content[i].1 == pm[p];
    FullRunIsUpdated(u);
    assert IsNewFile(u, p, u.source(pm[p]));
  }

  /** After an update every file of the new manifest is stored with its content: the old ones, and the new ones. */
  lemma UpdateStoresContent(base: Inventory, v: NewVersion, now: nat, u: Update)
    requires Updates(base, v, now, u) && HasContent(base.manifest, u.source, u.f0)
    ensures HasContent(u.next.inv.manifest, u.source, FullRun(u.Plan(), u.f0))
  {
    UpdatesIsSound(base, v, now, u);
    var pm :| ContentOf(u.next.inv.manifest, u.next.inv.head, pm) && Listing(pm, u.content);
    forall d, p | d in u.next.inv.manifest && p in u.next.inv.manifest[d]
      ensures Get(FullRun(u.Plan(), u.f0), p) == Some(u.source(DigestMaps.Lower(d)))
    {
      ManifestFileStored(base, v, now, u, pm, d, p);
    }
  }

  lemma ManifestFileStored(base: Inventory, v: NewVersion, now: nat, u: Update, pm: DigestMaps.PathMap, d: string,
                           p: Path)
    requires Updates(base, v, now, u) && HasContent(base.manifest, u.source, u.f0) && u.Sound()
    requires WellBuilt(u.next.inv) && ContentOf(u.next.inv.manifest, u.next.inv.head, pm) && Listing(pm, u.content)
    requires d in u.next.inv.manifest && p in u.next.inv.manifest[d]
    ensures Get(FullRun(u.Plan(), u.f0), p) == Some(u.source(DigestMaps.Lower(d)))
  {
    var dir, state := DirName(base.contentDir), DigestMaps.Norm(v.state);
    DirNameValid(base.contentDir);
    EntryAt(base.manifest, state, u.next.inv.head, dir, d, p);
    if IsNew(base.manifest, state, d) {
      assert DigestMaps.HasPath(u.next.inv.manifest, p);
      assert p in pm && pm[p] == d;
      NewFileStored(u, pm, p);
    } else {
      OldFileKept(base, u, d, p);
    }
  }

  /** And the root files are those of the new inventory, so that the next update can start from them. */
  lemma UpdateStoresRoot(base: Inventory, v: NewVersion, now: nat, u: Update)
    requires Updates(base, v, now, u) && (u.prev.Some? ==> HasRoot(u.prev.value, u.f0))
    ensures HasRoot(u.next, FullRun(u.Plan(), u.f0))
  {
    UpdatesIsSound(base, v, now, u);
    FullRunIsUpdated(u);
    var f := FullRun(u.Plan(), u.f0);
    forall w, p | VNums.Valid(w) && w.num > u.next.inv.head.num && Under(VNums.String(w), p) ensures Get(f, p) == None {
      OtherVersionUntouched(u, w, p);
    }
    forall s | s != u.next.inv.spec && !s.NoSpec? ensures Get(f, DeclName(s)) == None {
      OtherDeclaration(u, s);
    }
    if OldSpec(u.prev) == u.next.inv.spec { SameDeclaration(u); }
  }

  lemma OtherDeclaration(u: Update, s: Spec)
    requires u.Sound() && s != u.next.inv.spec && !s.NoSpec?
    requires u.prev.Some? ==> HasRoot(u.prev.value, u.f0)
    ensures Get(FullRun(u.Plan(), u.f0), DeclName(s)) == None
  {
    FullRunIsUpdated(u);
    if u.prev.None? || u.prev.value.inv.spec != s {
      if IsTarget(u, DeclName(s)) { DeclarationTargets(u, s); } else { FullRunMisses(u, DeclName(s)); }
    }
  }

  lemma SameDeclaration(u: Update)
    requires u.Sound() && OldSpec(u.prev) == u.next.inv.spec
    ensures Get(FullRun(u.Plan(), u.f0), DeclName(u.next.inv.spec)) == Get(u.f0, DeclName(u.next.inv.spec))
  {
    if IsTarget(u, DeclName(u.next.inv.spec)) { DeclarationTargets(u, u.next.inv.spec); }
    FullRunMisses(u, DeclName(u.next.inv.spec));
  }

  /** Only the old and the new declaration are targets, and only when they differ. */
  lemma DeclarationTargets(u: Update, s: Spec)
    requires u.Sound() && IsTarget(u, DeclName(s)) && !s.NoSpec?
    ensures OldSpec(u.prev) != u.next.inv.spec && (s == u.next.inv.spec || s == OldSpec(u.prev))
  {
    var p := DeclName(s);
    var i: nat :| i < |u.Plan()| && Hits(u.Plan(), i, p);
    StepAt(u.next, u.prev, u.content, u.source, i);
    HitsAt(u.next, u.prev, u.content, u.source, i, p);
    NamesApart(u.next, u.prev, u.next.inv.alg, if u.prev.Some? then u.prev.value.inv.alg else "", p);
    if AlgChanged(u.next, u.prev) { NamesApart(u.next, u.prev, u.prev.value.inv.alg, "", p); }
  }

  // ---------------------------------------------------------------- any number of updates

  /**
   What the next inventory is built on: nothing, or the normal form of the current one; with a spec, if one is given.
   */
  ghost function BaseOf(current: Option<StoredInventory>, id: string, spec: Spec): Inventory
    requires current.Some? ==> Normalizable(current.value.inv)
  {
    if current.None? then Inventory(id, if spec.NoSpec? then Spec1_1 else spec, "", VNums.VNum(0, 0), "", map[], map[])
    else
      var inv := NormalInventory(current.value.inv);
      if spec.NoSpec? then inv else inv.(spec := spec)
  }

  /** An update, and the version and spec it was made from. */
  datatype Made = Made(v: NewVersion, spec: Spec, now: nat, u: Update)

  /** Update i of an object: made from the inventory before it, and applied to the files as they are then. */
  ghost predicate MadeAfter(first: Inventory, source: string -> Bytes, ms: seq<Made>, i: nat)
    requires i < |ms|
  {
    var u := ms[i].u;
    && u.source == source
    && if i == 0 then Plans(first, ms[i].v, ms[i].now, u) && u.prev == None && u.f0 == map[]
       else
         var before := ms[i - 1].u;
         && Normalizable(before.next.inv) && Plans(BaseOf(Some(before.next), "", ms[i].spec), ms[i].v, ms[i].now, u)
         && u.prev == Some(before.next) && u.f0 == FullRun(before.Plan(), before.f0)
  }

  /** Updates of a new object, from an inventory without versions. */
  ghost predicate UpdateChain(first: Inventory, source: string -> Bytes, ms: seq<Made>) {
    first.manifest == map[] && forall i: nat :: i < |ms| ==> MadeAfter(first, source, ms, i)
  }

  /** What is stored after u agrees with its inventory. */
  ghost predicate Agrees(u: Update, source: string -> Bytes) {
    && u.Sound() && WellBuilt(u.next.inv) && VNums.Valid(u.next.inv.head)
    && HasContent(u.next.inv.manifest, source, FullRun(u.Plan(), u.f0))
    && HasRoot(u.next, FullRun(u.Plan(), u.f0))
  }

  lemma OneUpdateStored(base: Inventory, v: NewVersion, now: nat, u: Update)
    requires Updates(base, v, now, u) && HasContent(base.manifest, u.source, u.f0)
    requires u.prev.Some? ==> HasRoot(u.prev.value, u.f0)
    ensures Agrees(u, u.source)
  {
    UpdatesIsSound(base, v, now, u);
    UpdateStoresContent(base, v, now, u);
    UpdateStoresRoot(base, v, now, u);
  }

  lemma NextUpdateStored(before: Update, source: string -> Bytes, v: NewVersion, spec: Spec, now: nat, u: Update)
    requires Agrees(before, source) && u.source == source
    requires Normalizable(before.next.inv) && Plans(BaseOf(Some(before.next), "", spec), v, now, u)
    requires u.prev == Some(before.next) && u.f0 == FullRun(before.Plan(), before.f0)
    ensures Agrees(u, source)
  {
    var base := BaseOf(Some(before.next), "", spec);
    NextHeadValid(base, v, now, u);
    StoredIsOriginal(u.next, before.next, u.f0);
    NormalContent(before.next.inv.manifest, source, u.f0);
    OneUpdateStored(base, v, now, u);
  }

  ghost predicate AgreesAfter(source: string -> Bytes, ms: seq<Made>, i: nat) {
    i >= |ms| || Agrees(ms[i].u, source)
  }

  lemma ChainStep(first: Inventory, source: string -> Bytes, ms: seq<Made>, i: nat)
    requires i < |ms| && UpdateChain(first, source, ms)
    requires i > 0 ==> AgreesAfter(source, ms, i - 1)
    ensures AgreesAfter(source, ms, i)
  {
    assert MadeAfter(first, source, ms, i);
    var m := ms[i];
    if i == 0 {
      OneUpdateStored(first, m.v, m.now, m.u);
    } else {
      var before := ms[i - 1].u;
      NextUpdateStored(before, source, m.v, m.spec, m.now, m.u);
    }
  }

  /**
   After any number of updates what is stored agrees with the last inventory: every file of its manifest
   is there, with the content that its digest stands for, and the root files belong to it.
   */
  lemma {:induction false} AllUpdatesStored(first: Inventory, source: string -> Bytes, ms: seq<Made>, i: nat)
    requires UpdateChain(first, source, ms) && i < |ms|
    ensures AgreesAfter(source, ms, i)
    decreases i
  {
    if i > 0 { AllUpdatesStored(first, source, ms, i - 1); }
    ChainStep(first, source, ms, i);
  }

  lemma NextHeadValid(base: Inventory, v: NewVersion, now: nat, u: Update)
    requires Plans(base, v, now, u)
    ensures VNums.Valid(u.next.inv.head)
  {
    AddKeepsWellBuilt(base, v, now);
  }

  // ---------------------------------------------------------------- earlier versions

  lemma {:induction false} HeadAt(first: Inventory, source: string -> Bytes, ms: seq<Made>, j: nat, i: nat)
    requires UpdateChain(first, source, ms) && j <= i < |ms|
    ensures ms[i].u.next.inv.head.num == ms[j].u.next.inv.head.num + i - j
    decreases i
  {
    if j < i {
      HeadAt(first, source, ms, j, i - 1);
      assert MadeAfter(first, source, ms, i);
    }
  }

  /** The version directory of u holds the inventory that u has made, and its sidecar. */
  ghost predicate HasVersionFiles(u: Update, f: Files) {
    && Get(f, InDir(u.next.inv.head, INVENTORY)) == Some(u.next.bytes)
    && Get(f, InDir(u.next.inv.head, Sidecar(u.next.inv.alg))) == Some(SidecarBody(u.next.digest))
  }

  lemma OtherVersionKept(u: Update, other: Update)
    requires u.Sound() && VNums.Valid(u.next.inv.head) && VNums.Valid(other.next.inv.head)
    requires other.next.inv.head != u.next.inv.head && HasVersionFiles(other, u.f0)
    ensures HasVersionFiles(other, FullRun(u.Plan(), u.f0))
  {
    var head := other.next.inv.head;
    OtherVersionUntouched(u, head, InDir(head, INVENTORY));
    OtherVersionUntouched(u, head, InDir(head, Sidecar(other.next.inv.alg)));
  }

  lemma OwnVersionFiles(u: Update)
    requires u.Sound()
    ensures HasVersionFiles(u, FullRun(u.Plan(), u.f0))
  {
    FullRunIsUpdated(u);
    assert IsNewFile(u, InDir(u.next.inv.head, INVENTORY), u.next.bytes);
    assert IsNewFile(u, InDir(u.next.inv.head, Sidecar(u.next.inv.alg)), SidecarBody(u.next.digest));
  }

  ghost predicate HasVersionFilesAfter(ms: seq<Made>, j: nat, i: nat) {
    i < j || i >= |ms| || HasVersionFiles(ms[j].u, FullRun(ms[i].u.Plan(), ms[i].u.f0))
  }

  lemma VersionStays(first: Inventory, source: string -> Bytes, ms: seq<Made>, j: nat, before: nat, i: nat)
    requires UpdateChain(first, source, ms) && j <= before && i == before + 1 < |ms|
             && HasVersionFilesAfter(ms, j, before)
    ensures HasVersionFilesAfter(ms, j, i)
  {
    AllUpdatesStored(first, source, ms, i);
    AllUpdatesStored(first, source, ms, j);
    HeadAt(first, source, ms, j, i);
    assert MadeAfter(first, source, ms, i);
    OtherVersionKept(ms[i].u, ms[j].u);
  }

  /** After any number of updates every earlier version directory still holds its own inventory and sidecar. */
  lemma {:induction false} EarlierVersionsStay(first: Inventory, source: string -> Bytes, ms: seq<Made>, j: nat, i: nat)
    requires UpdateChain(first, source, ms) && j <= i < |ms|
    ensures HasVersionFilesAfter(ms, j, i)
    decreases i
  {
    if j == i {
      AllUpdatesStored(first, source, ms, i);
      OwnVersionFiles(ms[i].u);
    } else {
      var before := i - 1;
      EarlierVersionsStay(first, source, ms, j, before);
      VersionStays(first, source, ms, j, before, i);
    }
  }

  function InventoriesOf(ms: seq<Made>): seq<Inventory> {
    seq(|ms|, k requires 0 <= k < |ms| => ms[k].u.next.inv)
  }

  lemma AllMadeValid(first: Inventory, source: string -> Bytes, ms: seq<Made>)
    requires UpdateChain(first, source, ms)
    ensures forall i :: 0 <= i < |ms| ==> ValidInventory(ms[i].u.next.inv)
  {
    forall i | 0 <= i < |ms| ensures ValidInventory(ms[i].u.next.inv) {
      AllUpdatesStored(first, source, ms, i);
      WellBuiltIsValid(ms[i].u.next.inv);
    }
  }

  lemma MadeIsBuilt(first: Inventory, source: string -> Bytes, ms: seq<Made>, i: nat)
    requires UpdateChain(first, source, ms) && i + 1 < |ms|
    ensures History.BuiltOn(ms[i].u.next.inv, ms[i + 1].u.next.inv)
  {
    AllMadeValid(first, source, ms);
    assert MadeAfter(first, source, ms, i + 1);
    var before, m := ms[i].u.next, ms[i + 1];
    OneVersion(BaseOf(Some(before), "", m.spec), m.v, m.now);
    assert History.Builds(before.inv, m.u.next.inv, before.inv.id, if m.spec.NoSpec? then before.inv.spec else m.spec,
                          [m.v], m.now);
  }

  /**
   Comparing the inventory of an earlier version of the object with that of a later one raises neither E046 nor
   W011, and E066 exactly for versions with an empty digest.
   */
  lemma UpdatesKeepHistory(first: Inventory, source: string -> Bytes, ms: seq<Made>, i: nat, j: nat, v: VNum)
    requires UpdateChain(first, source, ms) && i <= j < |ms|
    ensures var a, b := ms[i].u.next.inv, ms[j].u.next.inv;
      && !History.Missing(a, b, v) && !History.Differs(a, b, v)
      && (History.Mismatch(a, b, v) <==> v in a.versions && "" in a.versions[v].state)
  {
    var invs := InventoriesOf(ms);
    AllMadeValid(first, source, ms);
    forall k: nat ensures History.Follows(invs, k) {
      if k + 1 < |ms| { MadeIsBuilt(first, source, ms, k); }
    }
    History.HistoryCompares(invs, i, j, v);
  }

  // ---------------------------------------------------------------- making plans for an object, and applying them

  /** No conflicts among the paths that get new content. */
  ghost predicate FreeOf(base: Inventory, v: NewVersion) {
    DigestMaps.ValidMap(v.state) && NewPathsFree(base.manifest, DigestMaps.Norm(v.state))
  }

  /**
   From a good inventory, and without conflicts among the new paths, the steps are a plan for an update to which all
   that is proved of updates applies.
   */
  ghost predicate StepsUpdate(current: Option<StoredInventory>, id: string, spec: Spec, v: NewVersion, now: nat,
                              next: StoredInventory, steps: Plan, source: string -> Bytes)
    requires current.Some? ==> Normalizable(current.value.inv)
  {
    (current.Some? ==> GoodInventory(current.value.inv)) && FreeOf(BaseOf(current, id, spec), v) ==>
      exists content ::
        && steps == PlanOf(next, current, content, source)
        && forall f0 :: Plans(BaseOf(current, id, spec), v, now, Update(next, current, content, source, f0))
  }

  /** A plan before it is applied. */
  datatype NewPlan = NewPlan(next: StoredInventory, prev: Option<StoredInventory>, steps: Plan)

  /** The new version has the same logical state as the current one. */
  ghost predicate Unchanged(current: Option<StoredInventory>, v: NewVersion) {
    && current.Some? && current.value.inv.head in current.value.inv.versions
    && var last := current.value.inv.versions[current.value.inv.head].state;
       DigestMaps.ValidMap(last) && DigestMaps.ValidMap(v.state) && DigestMaps.Norm(last) == DigestMaps.Norm(v.state)
  }

  /** What a successful build says of the version it was given. */
  lemma PlannedVersion(current: Option<StoredInventory>, id: string, spec: Spec, v: NewVersion, now: nat, u: Update,
                       pm: DigestMaps.PathMap)
    requires current.Some? ==> GoodInventory(current.value.inv)
    requires var r := WithVersion(BaseOf(current, id, spec), v, now); r == Ok(u.next.inv) && ValidInventory(u.next.inv)
    requires u.prev == current && !PlanError(u.next.inv, current) && FreeOf(BaseOf(current, id, spec), v)
    requires ContentOf(u.next.inv.manifest, u.next.inv.head, pm) && Listing(pm, u.content)
    ensures Plans(BaseOf(current, id, spec), v, now, u)
  {
    var base := BaseOf(current, id, spec);
    BaseIsWellBuilt(current, id, spec, v, now, u.next.inv);
    IsSuitable(base, v, now, u.next.inv);
    NextOfValid(u.next, current);
  }

  lemma NextOfValid(next: StoredInventory, prev: Option<StoredInventory>)
    requires ValidInventory(next.inv) && (prev.Some? ==> ValidInventory(prev.value.inv)) && !PlanError(next.inv, prev)
    ensures NextInventory(next, prev)
  {
  }

  lemma IsSuitable(base: Inventory, v: NewVersion, now: nat, next: Inventory)
    requires WithVersion(base, v, now) == Ok(next) && ValidInventory(next) && FreeOf(base, v)
    ensures Suitable(base, v, now)
  {
    assert next.head in next.versions && ValidVersion(next.manifest, next.versions[next.head]);
  }

  lemma BaseIsWellBuilt(current: Option<StoredInventory>, id: string, spec: Spec, v: NewVersion, now: nat,
                        next: Inventory)
    requires current.Some? ==> GoodInventory(current.value.inv)
    requires WithVersion(BaseOf(current, id, spec), v, now) == Ok(next) && ValidInventory(next)
    ensures WellBuilt(BaseOf(current, id, spec))
  {
    if current.Some? {
      NormalIsWellBuilt(current.value.inv);
      if !spec.NoSpec? { SpecChanged(NormalInventory(current.value.inv), spec); }
    } else {
      NewIsWellBuilt(id, if spec.NoSpec? then Spec1_1 else spec);
    }
  }

  lemma SpecChanged(inv: Inventory, spec: Spec)
    requires WellBuilt(inv) && !spec.NoSpec?
    ensures WellBuilt(inv.(spec := spec))
  {
    var b := inv.(spec := spec);
    forall d | d in b.manifest ensures Used(b, d) { assert Used(inv, d); }
  }

  lemma NewIsWellBuilt(id: string, spec: Spec)
    requires id != "" && !spec.NoSpec?
    ensures WellBuilt(Inventory(id, spec, "", VNums.VNum(0, 0), "", map[], map[]))
  {
    assert VNums.Lineage(VNums.VNum(0, 0)) == [];
  }

  function BaseDigest(inv: Option<StoredInventory>): string {
    if inv.Some? then inv.value.digest else ""
  }

  class Object {
    const store: ObjectStore
    const requiredID: string
    const writable: bool
    var inventory: Option<StoredInventory>
    var inventoryIsRoot: bool

    constructor (store: ObjectStore, requiredID: string, writable: bool, inventory: Option<StoredInventory>,
                 isRoot: bool)
      ensures this.store == store && this.requiredID == requiredID && this.writable == writable
      ensures this.inventory == inventory && inventoryIsRoot == isRoot
    {
      this.store, this.requiredID, this.writable := store, requiredID, writable;
      this.inventory, inventoryIsRoot := inventory, isRoot;
    }

    function ID(): string
      reads this
    {
      if inventory.Some? then inventory.value.inv.id else requiredID
    }

    predicate ReadOnly()
      reads this
    {
      (inventory.Some? && !inventoryIsRoot) || !writable
    }

    /** The plan is for this object, in its current state. */
    predicate Accepts(u: Update)
      reads this
    {
      !ReadOnly() && u.next.inv.id == ID() && BaseDigest(inventory) == BaseDigest(u.prev)
    }

    /** What the next inventory is, if one can be built. */
    ghost function NextInv(v: NewVersion, spec: Spec, now: nat): Result<Inventory>
      requires inventory.Some? ==> Normalizable(inventory.value.inv)
      reads this
    {
      WithVersion(BaseOf(inventory, ID(), spec), v, now)
    }

    ghost predicate MayPlan(v: NewVersion, spec: Spec, allowUnchanged: bool, now: nat)
      requires inventory.Some? ==> Normalizable(inventory.value.inv)
      reads this
    {
      && NextInv(v, spec, now).Ok? && ValidInventory(NextInv(v, spec, now).value)
      && (allowUnchanged || !Unchanged(inventory, v))
      && !LowerSpec(NextInv(v, spec, now).value.spec, OldSpec(inventory))
    }

    /**
     From a good inventory, or none, a version of the right algorithm is refused exactly for conflicts that nothing
     masks, for an unchanged state, or for a lower spec.
     */
    lemma MayPlanIf(v: NewVersion, spec: Spec, allowUnchanged: bool, now: nat)
      requires MayAdd(v, spec, now)
      ensures inventory.Some? ==> Normalizable(inventory.value.inv)
      ensures MayPlan(v, spec, allowUnchanged, now) <==>
              && NewPathsMasked(BaseOf(inventory, ID(), spec).manifest, DigestMaps.Norm(v.state))
              && (allowUnchanged || !Unchanged(inventory, v))
              && !(spec == Spec1_0 && inventory.Some? && inventory.value.inv.spec == Spec1_1)
    {
      NextIsValid(inventory, ID(), spec, v, now);
    }

    /**
     A plan is made exactly when the next inventory is valid, its spec is not lower, and the state is not the
     current one (unless that is allowed). It is a plan for an update of this object: from a good inventory, and
     without conflicts among the new paths, all that is proved of updates holds for it.
     */
    method NewUpdatePlan(v: NewVersion, spec: Spec, allowUnchanged: bool, now: nat, source: string -> Bytes,
                         marshal: Inventory -> Bytes, digest: (string, Bytes) -> string) returns (r: Result<NewPlan>)
      requires inventory.Some? ==> ValidInventory(inventory.value.inv)
      ensures r.Ok? <==> MayPlan(v, spec, allowUnchanged, now)
      ensures r.Ok? ==> Ok(r.value.next.inv) == NextInv(v, spec, now) && IsNext(v, spec, now, r.value.next.inv)
      ensures r.Ok? ==> r.value.next.bytes == marshal(r.value.next.inv)
                        && r.value.next.digest == digest(r.value.next.inv.alg, r.value.next.bytes)
      ensures r.Ok? ==> r.value.prev == inventory && IsPlanFor(r.value.steps, r.value.next, inventory)
      ensures r.Ok? ==> StepsUpdate(inventory, ID(), spec, v, now, r.value.next, r.value.steps, source)
    {
      var inv := BuildNext(v, spec, now);
      if inv.Err? { return Err(inv.error); }
      NextOfBase(BaseOf(inventory, ID(), spec), v, now);
      if !allowUnchanged {
        var same := HasState(v);
        if same { return Err("update has unchanged version state"); }
      }
      r := PlanFor(inv.value, v, spec, now, source, marshal, digest);
    }

    /** inv has the object's id, the spec that is asked for or else the current one, and v as its last version. */
    ghost predicate IsNext(v: NewVersion, spec: Spec, now: nat, inv: Inventory)
      reads this
    {
      && inv.id == ID()
      && inv.spec == (if spec != NoSpec then spec else if inventory.Some? then inventory.value.inv.spec else Spec1_1)
      && inv.contentDir == (if inventory.Some? then inventory.value.inv.contentDir else "")
      && var head := if inventory.Some? then inventory.value.inv.head else VNums.VNum(0, 0);
         HasAdded(head, [v], now, inv)
         && if inventory.Some? then KeepsOthers(inventory.value.inv, head, 1, inv) else inv.versions.Keys == {inv.head}
    }

    /** From a good inventory, or none, a version that may have conflicts. */
    ghost predicate MayAdd(v: NewVersion, spec: Spec, now: nat)
      reads this
    {
      && (if inventory.Some? then GoodInventory(inventory.value.inv) else requiredID != "")
      && Addable(BaseOf(inventory, ID(), spec), v, now)
    }

    method PlanFor(inv: Inventory, v: NewVersion, spec: Spec, now: nat, source: string -> Bytes,
                   marshal: Inventory -> Bytes, digest: (string, Bytes) -> string) returns (r: Result<NewPlan>)
      requires inventory.Some? ==> ValidInventory(inventory.value.inv)
      requires NextInv(v, spec, now) == Ok(inv) && ValidInventory(inv)
      ensures r.Ok? <==> !LowerSpec(inv.spec, OldSpec(inventory))
      ensures r.Ok? ==> r.value.next == StoredInventory(inv, marshal(inv), digest(inv.alg, marshal(inv)))
      ensures r.Ok? ==> r.value.prev == inventory && IsPlanFor(r.value.steps, r.value.next, inventory)
      ensures r.Ok? ==> StepsUpdate(inventory, ID(), spec, v, now, r.value.next, r.value.steps, source)
    {
      NextOfBase(BaseOf(inventory, ID(), spec), v, now);
      var next := StoredInventory(inv, marshal(inv), digest(inv.alg, marshal(inv)));
      var steps := NewPlanSteps(next, inventory, source);
      if steps.Err? { return Err(steps.error); }
      r := Ok(NewPlan(next, inventory, steps.value));
      StepsAreForUpdate(inventory, ID(), spec, v, now, next, steps.value, source);
    }

    method BuildNext(v: NewVersion, spec: Spec, now: nat) returns (r: Result<Inventory>)
      requires inventory.Some? ==> ValidInventory(inventory.value.inv)
      ensures r.Ok? <==> NextInv(v, spec, now).Ok? && ValidInventory(NextInv(v, spec, now).value)
      ensures r.Ok? ==> r == NextInv(v, spec, now) && IsNext(v, spec, now, r.value)
    {
      var b := new InventoryBuilder(if inventory.Some? then Some(inventory.value.inv) else None);
      b.SetID(ID());
      b.SetSpec(spec);
      b.AddVersion(v);
      BuildsNext(b, inventory, ID(), spec, v, now);
      r := b.Finalize(now);
      if r.Ok? && inventory.None? {
        assert r.value.versions.Keys == {r.value.head};
      }
    }

    method HasState(v: NewVersion) returns (same: bool)
      requires inventory.Some? ==> ValidInventory(inventory.value.inv)
      ensures same <==> Unchanged(inventory, v)
    {
      if inventory.None? || inventory.value.inv.head !in inventory.value.inv.versions { return false; }
      var last := inventory.value.inv.versions[inventory.value.inv.head].state;
      assert ValidVersion(inventory.value.inv.manifest, inventory.value.inv.versions[inventory.value.inv.head]);
      DigestMaps.EqMeaning(last, v.state);
      same := DigestMaps.Eq(last, v.state);
    }

    /**
     A plan that is not for the object's current inventory changes nothing. Any other fails if and only if a storage
     operation fails; one that succeeds makes its version the object's head.
     */
    method ApplyUpdatePlan(u: Update, plan: UpdatePlan) returns (ok: bool)
      requires plan.Valid() && plan.store == store && plan.plan == u.Plan() && plan.f0 == u.f0 && u.Sound()
      modifies this`inventory, this`inventoryIsRoot, plan`completed, plan`history, plan`outcome, store
      ensures plan.Valid() && old(plan.history) <= plan.history
      ensures old(Accepts(u)) <==>
              && old(writable && (inventory.None? || inventoryIsRoot))
              && u.next.inv.id == (if old(inventory).Some? then old(inventory).value.inv.id else requiredID)
              && (if old(inventory).Some? then old(inventory).value.digest else "")
                 == (if u.prev.Some? then u.prev.value.digest else "")
      ensures ok ==> old(Accepts(u)) && inventory == Some(u.next) && inventoryIsRoot && AllDone(plan.completed)
      ensures ok ==> (store.files == FullRun(u.Plan(), u.f0) <==>
                      Accurate(u.Plan(), true, u.f0, old(store.files), old(plan.completed)))
      ensures ok && !plan.faults.tornRevert ==> store.files == FullRun(u.Plan(), u.f0) && Updated(u, store.files)
      ensures !ok ==> inventory == old(inventory) && inventoryIsRoot == old(inventoryIsRoot)
      ensures !old(Accepts(u)) ==> !ok && store.files == old(store.files) && plan.history == old(plan.history)
      ensures if old(Accepts(u)) then Noticed(old(store.log), store.log, false, !ok) else store.log == old(store.log)
    {
      if ReadOnly() { return false; }
      if u.next.inv.id != ID() { return false; }
      if BaseDigest(inventory) != BaseDigest(u.prev) { return false; }
      ok := plan.Apply();
      if ok {
        inventory, inventoryIsRoot := Some(u.next), true;
        FullRunIsUpdated(u);
      }
    }
  }

  /** Whether the next inventory is valid only depends on conflicts that nothing masks. */
  lemma NextIsValid(current: Option<StoredInventory>, id: string, spec: Spec, v: NewVersion, now: nat)
    requires if current.Some? then GoodInventory(current.value.inv) else id != ""
    requires Addable(BaseOf(current, id, spec), v, now)
    ensures var base := BaseOf(current, id, spec);
      && WithVersion(base, v, now).Ok?
      && (ValidInventory(WithVersion(base, v, now).value) <==> NewPathsMasked(base.manifest, DigestMaps.Norm(v.state)))
      && WithVersion(base, v, now).value.spec == base.spec
  {
    if current.Some? {
      NormalIsWellBuilt(current.value.inv);
      if !spec.NoSpec? { SpecChanged(NormalInventory(current.value.inv), spec); }
    } else {
      NewIsWellBuilt(id, if spec.NoSpec? then Spec1_1 else spec);
    }
    AddIsValid(BaseOf(current, id, spec), v, now);
  }

  lemma NextOfBase(base: Inventory, v: NewVersion, now: nat)
    requires WithVersion(base, v, now).Ok?
    ensures var r := WithVersion(base, v, now).value;
      r.id == base.id && r.spec == base.spec && r.head.num == base.head.num + 1
  {
  }

  lemma StepsAreForUpdate(current: Option<StoredInventory>, id: string, spec: Spec, v: NewVersion, now: nat,
                          next: StoredInventory, steps: Plan, source: string -> Bytes)
    requires current.Some? ==> ValidInventory(current.value.inv)
    requires WithVersion(BaseOf(current, id, spec), v, now) == Ok(next.inv) && ValidInventory(next.inv)
    requires !PlanError(next.inv, current)
    requires exists pm, content :: ContentOf(next.inv.manifest, next.inv.head, pm) && Listing(pm, content)
                                   && steps == PlanOf(next, current, content, source)
    ensures StepsUpdate(current, id, spec, v, now, next, steps, source)
  {
    var pm, content :| ContentOf(next.inv.manifest, next.inv.head, pm) && Listing(pm, content)
                       && steps == PlanOf(next, current, content, source);
    if (current.Some? ==> GoodInventory(current.value.inv)) && FreeOf(BaseOf(current, id, spec), v) {
      forall f0 ensures Plans(BaseOf(current, id, spec), v, now, Update(next, current, content, source, f0)) {
        PlannedVersion(current, id, spec, v, now, Update(next, current, content, source, f0), pm);
      }
    }
  }

  lemma OneVersion(inv: Inventory, v: NewVersion, now: nat)
    ensures WithVersions(inv, [v], now) == WithVersion(inv, v, now)
  {
    assert [v][..0] == [];
    assert WithVersions(inv, [], now) == Ok(inv);
  }

  lemma BuildsNext(b: InventoryBuilder, current: Option<StoredInventory>, id: string, spec: Spec, v: NewVersion,
                   now: nat)
    requires current.Some? ==>
               ValidInventory(current.value.inv) && id == current.value.inv.id && b.head == current.value.inv.head
    requires b.prev == (if current.Some? then Some(current.value.inv) else None)
    requires b.contDir == (if current.Some? then current.value.inv.contentDir else "")
             && (current.None? ==> b.head == VNums.VNum(0, 0))
    requires b.id == id && b.added == [v]
    requires b.spec == if !spec.NoSpec? then spec else if current.Some? then current.value.inv.spec else Spec1_1
    ensures b.Built(now) == WithVersion(BaseOf(current, id, spec), v, now)
  {
    assert b.Initial() == Ok(BaseOf(current, id, spec));
    OneVersion(BaseOf(current, id, spec), v, now);
  }
}
