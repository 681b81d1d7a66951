/** Inventories: what makes them valid, and how the builder adds versions to them. */
module Inventories {
  import opened Values
  import opened Strings
  import opened DigestMaps
  import VNums

  type VNum = VNums.VNum

  datatype Spec = NoSpec | Spec1_0 | Spec1_1

  datatype User = User(name: string, address: string)

  datatype Version = Version(created: nat, message: string, user: Option<User>, state: DigestMap)

  datatype Inventory = Inventory(
    id: string,
    spec: Spec,
    alg: string,
    head: VNum,
    contentDir: string,
    manifest: DigestMap,
    versions: map<VNum, Version>)

  const SECOND: nat := 1_000_000_000

  /** A version to be added, with a time in nanoseconds; it is 0 when the time of the build is to be used. */
  datatype NewVersion = NewVersion(state: DigestMap, alg: string, created: nat, message: string, user: Option<User>)

  // ---------------------------------------------------------------- validity

  predicate ValidContentDir(dir: string) {
    '/' !in dir && dir != "." && dir != ".."
  }

  predicate ValidUser(u: Option<User>) {
    u.Some? ==> u.value.name != ""
  }

  function PathsOf(m: DigestMap, d: string): seq<string> {
    if d in m then m[d] else []
  }

  ghost predicate ValidVersion(manifest: DigestMap, v: Version) {
    && v.created != 0 && ValidUser(v.user)
    && ValidMap(v.state)
    && forall d :: d in v.state ==> PathsOf(manifest, d) != []
  }

  ghost predicate Used(inv: Inventory, d: string) {
    exists v :: v in inv.versions && PathsOf(inv.versions[v].state, d) != []
  }

  ghost predicate ValidInventory(inv: Inventory) {
    && inv.id != "" && !inv.spec.NoSpec? && KnownAlgorithm(inv.alg)
    && VNums.Valid(inv.head) && ValidContentDir(inv.contentDir)
    && ValidMap(inv.manifest)
    && (forall d :: d in inv.manifest ==> Used(inv, d))
    && inv.versions.Keys == (set v | v in VNums.Lineage(inv.head))
    && (forall v :: v in inv.versions ==> ValidVersion(inv.manifest, inv.versions[v]))
  }

  /**
   What is valid: versions numbered from 1 to head, with content for every digest of a state, and all content in use
   (OCFL 1.1, section 3.5).
   */
  lemma ValidityMeans(inv: Inventory)
    ensures ValidInventory(inv) <==>
            && inv.id != "" && inv.spec != NoSpec && (inv.alg == "sha512" || inv.alg == "sha256")
            && VNums.Valid(inv.head) && '/' !in inv.contentDir && inv.contentDir !in {".", ".."}
            && ValidMap(inv.manifest)
            && (forall v :: v in inv.versions <==> 1 <= v.num <= inv.head.num && v.padding == inv.head.padding)
            && (forall d :: d in inv.manifest ==> exists v :: v in inv.versions && d in inv.versions[v].state)
            && forall v :: v in inv.versions ==> VersionMeans(inv.manifest, inv.versions[v])
  {
    forall v ensures v in VNums.Lineage(inv.head) <==> 1 <= v.num <= inv.head.num && v.padding == inv.head.padding {
      if 1 <= v.num <= inv.head.num && v.padding == inv.head.padding {
        assert VNums.Lineage(inv.head)[v.num - 1] == v;
      }
    }
    var numbers := set v | v in VNums.Lineage(inv.head);
    assert inv.versions.Keys == numbers <==> forall v :: v in inv.versions <==> v in numbers;
    if ValidMap(inv.manifest) {
      forall v | v in inv.versions
        ensures ValidVersion(inv.manifest, inv.versions[v]) <==> VersionMeans(inv.manifest, inv.versions[v])
      {
        VersionIs(inv.manifest, inv.versions[v]);
      }
      UsedMeans(inv);
    }
  }

  ghost predicate VersionMeans(manifest: DigestMap, v: Version) {
    && v.created != 0 && (v.user.Some? ==> v.user.value.name != "")
    && ValidMap(v.state) && forall d :: d in v.state ==> d in manifest
  }

  lemma VersionIs(manifest: DigestMap, v: Version)
    requires ValidMap(manifest)
    ensures ValidVersion(manifest, v) <==> VersionMeans(manifest, v)
  {
  }

  lemma UsedMeans(inv: Inventory)
    ensures (forall v :: v in inv.versions ==> ValidMap(inv.versions[v].state)) ==>
            forall d :: Used(inv, d) <==> exists v :: v in inv.versions && d in inv.versions[v].state
  {
  }

  method Validate(inv: Inventory) returns (ok: bool)
    ensures ok <==> ValidInventory(inv)
  {
    if inv.id == "" || inv.spec.NoSpec? || !KnownAlgorithm(inv.alg) { return false; }
    if !VNums.Valid(inv.head) || !ValidContentDir(inv.contentDir) { return false; }
    ok := Valid(inv.manifest);
    if !ok { return; }
    ok := VersionsValid(inv.versions.Keys, inv.head);
    if !ok { return; }
    ok := AllUsed(inv);
    if !ok { return; }
    var todo := inv.versions.Keys;
    while todo != {}
      invariant todo <= inv.versions.Keys
      invariant forall v :: v in inv.versions && v !in todo ==> ValidVersion(inv.manifest, inv.versions[v])
      decreases |todo|
    {
      var v :| v in todo;
      todo := todo - {v};
      var ver := inv.versions[v];
      if ver.created == 0 || !ValidUser(ver.user) { return false; }
      ok := Valid(ver.state);
      if !ok { return; }
      if d :| d in ver.state && PathsOf(inv.manifest, d) == [] { return false; }
    }
    return true;
  }

  /** The version numbers, sorted, are the sequence 1, 2, ... that ends in head. */
  method VersionsValid(keys: set<VNum>, head: VNum) returns (ok: bool)
    requires VNums.Valid(head)
    ensures ok <==> keys == (set v | v in VNums.Lineage(head))
  {
    var todo, vs := keys, [];
    while todo != {}
      invariant todo <= keys && Distinct(vs)
      invariant forall v :: v in vs <==> v in keys - todo
      decreases |todo|
    {
      var v :| v in todo;
      assert v !in vs;
      todo, vs := todo - {v}, vs + [v];
    }
    var vnums := new VNum[|vs|](i requires 0 <= i < |vs| => vs[i]);
    assert vnums[..] == vs;
    var r := VNums.ValidSequence(vnums);
    ok := r == Some(head);
    SameAsLineage(vs, r, head);
  }

  lemma SameAsLineage(vs: seq<VNum>, r: Option<VNum>, head: VNum)
    requires Distinct(vs) && VNums.Valid(head)
    requires r.Some? <==> exists h :: VNums.Valid(h) && multiset(vs) == multiset(VNums.Lineage(h))
    requires r.Some? ==> VNums.Valid(r.value) && multiset(vs) == multiset(VNums.Lineage(r.value))
    ensures r == Some(head) <==> (set v | v in vs) == (set v | v in VNums.Lineage(head))
  {
    if r.Some? { SameElements(vs, VNums.Lineage(r.value)); }
    var a, b := set v | v in vs, set v | v in VNums.Lineage(head);
    assert forall v :: v in a <==> v in vs;
    assert forall v :: v in b <==> v in VNums.Lineage(head);
    if a == b {
      assert forall v :: v in vs <==> v in a;
      SameBag(vs, VNums.Lineage(head));
      LastOfLineage(r.value, head);
    }
  }

  lemma SameBag(s: seq<VNum>, t: seq<VNum>)
    requires Distinct(s) && Distinct(t) && forall v :: v in s <==> v in t
    ensures multiset(s) == multiset(t)
  {
    DistinctCounts(s);
    DistinctCounts(t);
    forall v ensures multiset(s)[v] == multiset(t)[v] {
      assert v in s <==> multiset(s)[v] > 0;
      assert v in t <==> multiset(t)[v] > 0;
    }
  }

  lemma LastOfLineage(a: VNum, b: VNum)
    requires a.num > 0 && b.num > 0 && forall v :: v in VNums.Lineage(a) <==> v in VNums.Lineage(b)
    ensures a == b
  {
    assert VNums.Lineage(a)[a.num - 1] == a && VNums.Lineage(b)[b.num - 1] == b;
    assert a in VNums.Lineage(b) && b in VNums.Lineage(a);
  }

  method AllUsed(inv: Inventory) returns (ok: bool)
    ensures ok <==> forall d :: d in inv.manifest ==> Used(inv, d)
  {
    var todo := inv.manifest.Keys;
    while todo != {}
      invariant todo <= inv.manifest.Keys
      invariant forall d :: d in inv.manifest && d !in todo ==> Used(inv, d)
      decreases |todo|
    {
      var d :| d in todo;
      todo := todo - {d};
      if !(exists v :: v in inv.versions && PathsOf(inv.versions[v].state, d) != []) {
        assert !Used(inv, d);
        return false;
      }
    }
    return true;
  }

  // ---------------------------------------------------------------- adding versions

  function DirName(contentDir: string): string {
    if contentDir == "" then "content" else contentDir
  }

  function ContentPath(head: VNum, dir: string, p: string): string {
    VNums.String(head) + "/" + (dir + "/" + p)
  }

  function ContentPaths(head: VNum, dir: string, ps: seq<string>): seq<string> {
    seq(|ps|, i requires 0 <= i < |ps| => ContentPath(head, dir, ps[i]))
  }

  /** Digests that the manifest already has content for get no new content. */
  ghost function NewManifest(manifest: DigestMap, state: DigestMap, head: VNum, dir: string): DigestMap {
    manifest + map d | d in state && IsNew(manifest, state, d) :: ContentPaths(head, dir, state[d])
  }

  /** Times are cut to whole seconds. */
  function CreatedAt(v: NewVersion, now: nat): nat {
    var t := if v.created == 0 then now else v.created;
    t / SECOND * SECOND
  }

  ghost function WithVersion(inv: Inventory, v: NewVersion, now: nat): Result<Inventory> {
    var next := VNums.Next(inv.head);
    if next.Err? then Err(next.error)
    else if !ValidMap(v.state) then Err("version state")
    else if inv.alg != "" && inv.alg != v.alg then Err("cannot change inventory's digest algorithm")
    else
      var state := Norm(v.state);
      var version := Version(CreatedAt(v, now), v.message, v.user, state);
      Ok(inv.(alg := v.alg, head := next.value, versions := inv.versions[next.value := version],
              manifest := NewManifest(inv.manifest, state, next.value, DirName(inv.contentDir))))
  }

  ghost function WithVersions(inv: Inventory, vs: seq<NewVersion>, now: nat): Result<Inventory> {
    if vs == [] then Ok(inv)
    else
      var r := WithVersions(inv, vs[..|vs| - 1], now);
      if r.Err? then r else WithVersion(r.value, vs[|vs| - 1], now)
  }

  ghost predicate Normalizable(inv: Inventory) {
    ValidMap(inv.manifest) && forall v :: v in inv.versions ==> ValidMap(inv.versions[v].state)
  }

  /** prev with normalized manifest and states. */
  ghost function NormalInventory(inv: Inventory): Inventory
    requires Normalizable(inv)
  {
    inv.(manifest := Norm(inv.manifest),
         versions := map v | v in inv.versions :: inv.versions[v].(state := Norm(inv.versions[v].state)))
  }

  class InventoryBuilder {
    const prev: Option<Inventory>
    var id: string
    var contDir: string
    var head: VNum
    var spec: Spec
    var added: seq<NewVersion>

    constructor (prev: Option<Inventory>)
      ensures this.prev == prev && added == []
      ensures id == if prev.Some? then prev.value.id else ""
      ensures contDir == if prev.Some? then prev.value.contentDir else ""
      ensures head == if prev.Some? then prev.value.head else VNums.VNum(0, 0)
      ensures spec == if prev.Some? then prev.value.spec else Spec1_1
    {
      this.prev := prev;
      added := [];
      id := if prev.Some? then prev.value.id else "";
      contDir := if prev.Some? then prev.value.contentDir else "";
      head := if prev.Some? then prev.value.head else VNums.VNum(0, 0);
      spec := if prev.Some? then prev.value.spec else Spec1_1;
    }

    method AddVersion(v: NewVersion)
      modifies this`added
      ensures added == old(added) + [v]
    {
      added := added + [v];
    }

    /** Ignored when there is an inventory to start from. */
    method ContentDirectory(name: string)
      modifies this`contDir
      ensures contDir == if prev.None? then name else old(contDir)
    {
      if prev.None? { contDir := name; }
    }

    method Padding(p: nat)
      modifies this`head
      ensures head == if prev.None? then VNums.VNum(0, p) else old(head)
    {
      if prev.None? { head := VNums.VNum(0, p); }
    }

    method SetID(name: string)
      modifies this`id
      ensures id == name
    {
      id := name;
    }

    method SetSpec(s: Spec)
      modifies this`spec
      ensures spec == if s.NoSpec? then old(spec) else s
    {
      if !s.NoSpec? { spec := s; }
    }

    /** What Finalize starts from. */
    ghost function Initial(): Result<Inventory>
      reads this
    {
      if prev.None? then Ok(Inventory(id, spec, "", head, contDir, map[], map[]))
      else if !Normalizable(prev.value) then Err("existing inventory")
      else Ok(NormalInventory(prev.value).(id := id, spec := spec, head := head, contentDir := contDir))
    }

    ghost function Built(now: nat): Result<Inventory>
      reads this
    {
      var r := Initial();
      if r.Err? then r else WithVersions(r.value, added, now)
    }

    method InitialInventory() returns (r: Result<Inventory>)
      ensures r.Ok? <==> Initial().Ok?
      ensures r.Ok? ==> r.value == Initial().value
      ensures r.Ok? && prev.None? ==> r.value.manifest == map[] && r.value.versions == map[]
      ensures r.Ok? && prev.Some? ==>
                IsNormalOf(prev.value.manifest, r.value.manifest) && KeepsOthers(prev.value, head, 0, r.value)
      ensures r.Ok? ==> r.value.head == head && r.value.id == id && r.value.spec == spec
      ensures r.Ok? ==> r.value.contentDir == contDir
    {
      if prev.None? { return Ok(Inventory(id, spec, "", head, contDir, map[], map[])); }
      var base := prev.value;
      var manifest := Normalize(base.manifest);
      if manifest.Err? { return Err(manifest.error); }
      var versions: map<VNum, Version> := map[];
      var todo := base.versions.Keys;
      while todo != {}
        invariant todo <= base.versions.Keys && versions.Keys == base.versions.Keys - todo
        invariant forall v :: v in versions ==> ValidMap(base.versions[v].state)
        invariant forall v :: v in versions ==> versions[v] == base.versions[v].(state := Norm(base.versions[v].state))
        decreases |todo|
      {
        var v :| v in todo;
        todo := todo - {v};
        var state := Normalize(base.versions[v].state);
        if state.Err? { return Err(state.error); }
        versions := versions[v := base.versions[v].(state := state.value)];
      }
      assert versions == NormalInventory(base).versions;
      return Ok(Inventory(id, spec, base.alg, head, contDir, manifest.value, versions));
    }

    method BuildVersions(start: Inventory, now: nat) returns (r: Result<Inventory>)
      ensures r.Ok? <==> WithVersions(start, added, now).Ok?
      ensures r.Ok? ==> r == WithVersions(start, added, now)
      ensures r.Ok? ==> HasAdded(start.head, added, now, r.value) && SameOthers(start, start.head, |added|, r.value)
    {
      assert WithVersions(start, added[..0], now) == Ok(start);
      var inv := start;
      for i := 0 to |added|
        invariant WithVersions(start, added[..i], now) == Ok(inv)
      {
        NextVersion(start, added, i, now);
        var one := AddOne(inv, added[i], now);
        if one.Err? {
          FailsEarly(start, added, i + 1, now);
          return one;
        }
        inv := one.value;
      }
      assert added[..|added|] == added;
      VersionsAdded(start, added, now);
      return Ok(inv);
    }

    method Finalize(now: nat) returns (r: Result<Inventory>)
      ensures r.Ok? <==> Built(now).Ok? && ValidInventory(Built(now).value)
      ensures r.Ok? ==> r == Built(now)
      ensures r.Ok? ==> r.value.id == id && r.value.spec == spec && r.value.contentDir == contDir
      ensures r.Ok? ==> HasAdded(head, added, now, r.value)
      ensures r.Ok? && prev.Some? ==> KeepsOthers(prev.value, head, |added|, r.value)
      ensures r.Ok? && prev.None? ==> forall w :: w in r.value.versions ==> IsAdded(head, |added|, w)
    {
      var start := InitialInventory();
      if start.Err? { return Err(start.error); }
      r := BuildVersions(start.value, now);
      if r.Err? { return; }
      VersionsAdded(start.value, added, now);
      if prev.Some? { OthersKept(prev.value, start.value, head, |added|, r.value); }
      var ok := Validate(r.value);
      if !ok { return Err("generated inventory is not valid"); }
    }
  }

  // ---------------------------------------------------------------- what the builder records

  /** inv has v as its version n: its state in normal form, its message and user, and its time in whole seconds. */
  ghost predicate Records(inv: Inventory, n: VNum, v: NewVersion, now: nat) {
    && n in inv.versions && IsNormalOf(v.state, inv.versions[n].state)
    && inv.versions[n].message == v.message && inv.versions[n].user == v.user
    && var t, created := if v.created == 0 then now else v.created, inv.versions[n].created;
      created % 1_000_000_000 == 0 && created <= t < created + 1_000_000_000
  }

  /** Version w has one of the n numbers after head. */
  predicate IsAdded(head: VNum, n: nat, w: VNum) {
    head.num < w.num <= head.num + n && w.padding == head.padding
  }

  /** The versions vs have the numbers after head, in their order, and the last of them is the head of inv. */
  ghost predicate HasAdded(head: VNum, vs: seq<NewVersion>, now: nat, inv: Inventory) {
    && inv.head == VNums.VNum(head.num + |vs|, head.padding)
    && (forall k: nat :: k < |vs| ==> Records(inv, VNums.VNum(head.num + k + 1, head.padding), vs[k], now))
    && (forall k: nat :: k < |vs| && vs[k].alg != "" ==> inv.alg == vs[k].alg)
  }

  /** Other versions are in inv as they were, in normal form. */
  ghost predicate KeepsOthers(prev: Inventory, head: VNum, n: nat, inv: Inventory) {
    forall w :: w in prev.versions && !IsAdded(head, n, w) ==>
      && w in inv.versions && IsNormalOf(prev.versions[w].state, inv.versions[w].state)
      && inv.versions[w] == prev.versions[w].(state := inv.versions[w].state)
  }

  /** inv has the versions of start that are not among the n numbers after head, and no others but these. */
  ghost predicate SameOthers(start: Inventory, head: VNum, n: nat, inv: Inventory) {
    && (forall w :: w in start.versions && !IsAdded(head, n, w) ==>
          w in inv.versions && inv.versions[w] == start.versions[w])
    && (forall w :: w in inv.versions ==> w in start.versions || IsAdded(head, n, w))
  }

  lemma {:induction false} VersionsAdded(inv: Inventory, vs: seq<NewVersion>, now: nat)
    requires WithVersions(inv, vs, now).Ok?
    ensures var r := WithVersions(inv, vs, now).value;
      && r.id == inv.id && r.spec == inv.spec && r.contentDir == inv.contentDir
      && HasAdded(inv.head, vs, now, r) && SameOthers(inv, inv.head, |vs|, r)
  {
    if vs != [] {
      var init, v := vs[..|vs| - 1], vs[|vs| - 1];
      VersionsAdded(inv, init, now);
      var b, r := WithVersions(inv, init, now).value, WithVersions(inv, vs, now).value;
      OneAdded(b, v, now, r);
      HasOneMore(inv.head, init, v, now, b, r);
      SameOneMore(inv, inv.head, |init|, v, now, b, r);
      LastApart(vs);
    }
  }

  /** r is b with the version v under the next number. */
  ghost predicate AddedTo(b: Inventory, v: NewVersion, now: nat, r: Inventory) {
    && r.head == VNums.VNum(b.head.num + 1, b.head.padding)
    && r.head in r.versions && r.versions == b.versions[r.head := r.versions[r.head]]
    && Records(r, r.head, v, now) && r.alg == v.alg && (b.alg == "" || b.alg == v.alg)
  }

  lemma OneAdded(b: Inventory, v: NewVersion, now: nat, r: Inventory)
    requires WithVersion(b, v, now) == Ok(r)
    ensures AddedTo(b, v, now, r)
  {
  }

  lemma HasOneMore(head: VNum, vs: seq<NewVersion>, v: NewVersion, now: nat, b: Inventory, r: Inventory)
    requires HasAdded(head, vs, now, b) && AddedTo(b, v, now, r)
    ensures HasAdded(head, vs + [v], now, r)
  {
    forall k: nat | k < |vs| + 1 ensures Records(r, VNums.VNum(head.num + k + 1, head.padding), (vs + [v])[k], now) {
      if k < |vs| { assert Records(b, VNums.VNum(head.num + k + 1, head.padding), vs[k], now); }
    }
  }

  lemma SameOneMore(start: Inventory, head: VNum, n: nat, v: NewVersion, now: nat, b: Inventory, r: Inventory)
    requires SameOthers(start, head, n, b) && b.head == VNums.VNum(head.num + n, head.padding) && AddedTo(b, v, now, r)
    ensures SameOthers(start, head, n + 1, r)
  {
  }

  lemma OthersKept(prev: Inventory, start: Inventory, head: VNum, n: nat, inv: Inventory)
    requires Normalizable(prev) && start.versions == NormalInventory(prev).versions && SameOthers(start, head, n, inv)
    ensures KeepsOthers(prev, head, n, inv)
  {
  }

  lemma NextVersion(inv: Inventory, vs: seq<NewVersion>, i: nat, now: nat)
    requires i < |vs|
    ensures WithVersions(inv, vs[..i + 1], now) ==
            var r := WithVersions(inv, vs[..i], now); if r.Err? then r else WithVersion(r.value, vs[i], now)
  {
    assert vs[..i + 1][..i] == vs[..i];
  }

  lemma {:induction false} FailsEarly(inv: Inventory, vs: seq<NewVersion>, i: nat, now: nat)
    requires i <= |vs| && WithVersions(inv, vs[..i], now).Err?
    ensures WithVersions(inv, vs, now).Err?
    decreases |vs|
  {
    if i < |vs| {
      assert vs[..|vs| - 1][..i] == vs[..i];
      FailsEarly(inv, vs[..|vs| - 1], i, now);
    } else {
      assert vs[..i] == vs;
    }
  }

  /** The body of the builder's loop; the new state's digests are visited in any order. */
  method AddOne(inv: Inventory, v: NewVersion, now: nat) returns (r: Result<Inventory>)
    ensures r.Ok? <==> WithVersion(inv, v, now).Ok?
    ensures r.Ok? ==> r == WithVersion(inv, v, now)
  {
    var next := VNums.Next(inv.head);
    if next.Err? { return Err(next.error); }
    var state := Normalize(v.state);
    if state.Err? { return Err(state.error); }
    if inv.alg != "" && inv.alg != v.alg { return Err("cannot change inventory's digest algorithm"); }
    var version := Version(CreatedAt(v, now), v.message, v.user, state.value);
    var manifest := FillManifest(inv.manifest, state.value, next.value, DirName(inv.contentDir));
    return Ok(inv.(alg := v.alg, head := next.value, manifest := manifest,
                   versions := inv.versions[next.value := version]));
  }

  predicate IsNew(manifest: DigestMap, state: DigestMap, d: string) {
    d in state && PathsOf(manifest, d) == []
  }

  method FillManifest(manifest: DigestMap, state: DigestMap, head: VNum, dir: string) returns (m: DigestMap)
    ensures m == NewManifest(manifest, state, head, dir)
    ensures forall d :: d in m <==> d in manifest || (d in state && PathsOf(manifest, d) == [])
    ensures forall d :: d in m && PathsOf(manifest, d) != [] ==> m[d] == manifest[d]
    ensures forall d :: d in state && PathsOf(manifest, d) == [] ==>
              |m[d]| == |state[d]| && forall i :: 0 <= i < |m[d]| ==> m[d][i] == ContentPath(head, dir, state[d][i])
  {
    m := manifest;
    var todo := state.Keys;
    while todo != {}
      invariant todo <= state.Keys
      invariant forall d :: d in manifest || IsNew(manifest, state, d) ==> d in m || d in todo
      invariant forall d :: d in m && (d in todo || !IsNew(manifest, state, d)) ==> d in manifest && m[d] == manifest[d]
      invariant forall d :: d in m && d !in todo && IsNew(manifest, state, d) ==>
                  m[d] == ContentPaths(head, dir, state[d])
      invariant forall d :: d in manifest ==> d in m
      decreases |todo|
    {
      var d :| d in todo;
      todo := todo - {d};
      assert PathsOf(m, d) == PathsOf(manifest, d);
      if PathsOf(m, d) == [] {
        m := m[d := ContentPaths(head, dir, state[d])];
      }
    }
    ManifestIs(manifest, state, head, dir, m);
  }

  lemma ManifestIs(manifest: DigestMap, state: DigestMap, head: VNum, dir: string, m: DigestMap)
    requires forall d :: d in m <==> d in manifest || IsNew(manifest, state, d)
    requires forall d :: d in m ==>
               m[d] == if IsNew(manifest, state, d) then ContentPaths(head, dir, state[d]) else manifest[d]
    ensures m == NewManifest(manifest, state, head, dir)
  {
  }
}
