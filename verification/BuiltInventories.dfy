/** What the builder makes is valid, and has exactly what is new. */
module BuiltInventories {
  import opened Values
  import opened Strings
  import opened PathChecks
  import opened DigestMaps
  import opened Inventories
  import VNums

  // ---------------------------------------------------------------- content paths

  lemma StringHasNoSlash(v: VNum)
    ensures forall i :: 0 <= i < |VNums.String(v)| ==> VNums.String(v)[i] != '/'
    ensures VNums.String(v) != "" && VNums.String(v)[0] == 'v' && ValidName(VNums.String(v))
  {
  }

  /** p is in the directory of version v. */
  predicate InVersion(v: VNum, p: string) {
    HasPrefix(p, VNums.String(v) + "/")
  }

  lemma InOneVersion(v: VNum, w: VNum, p: string)
    requires VNums.Valid(v) && VNums.Valid(w) && InVersion(v, p) && InVersion(w, p)
    ensures v == w
  {
    StringHasNoSlash(v);
    StringHasNoSlash(w);
    var s, t := VNums.String(v), VNums.String(w);
    assert p[..|s| + 1] == s + "/" && p[..|t| + 1] == t + "/";
    assert p[|s|] == '/' && p[|t|] == '/';
    assert forall i :: 0 <= i < |s| ==> p[i] == s[i];
    assert forall i :: 0 <= i < |t| ==> p[i] == t[i];
    assert |s| == |t|;
    assert s == p[..|s|] == t;
    VNums.StringInjective(v, w);
  }

  lemma PrefixWithin(head: string, p: string, q: string)
    ensures HasPrefix(head + q, head + p) <==> HasPrefix(q, p)
  {
    var x, y := head + p, head + q;
    if |p| <= |q| {
      assert y[..|x|] == head + q[..|p|];
      assert y[..|x|] == x ==> q[..|p|] == y[..|x|][|head|..] == p;
    }
  }

  lemma ContentPathFacts(v: VNum, dir: string, p: string, q: string)
    requires ValidName(dir)
    ensures InVersion(v, ContentPath(v, dir, p))
    ensures ContentPath(v, dir, p) == ContentPath(v, dir, q) ==> p == q
    ensures Conflict(ContentPath(v, dir, p), ContentPath(v, dir, q)) <==> Conflict(p, q)
    ensures Masks(ContentPath(v, dir, p), ContentPath(v, dir, q)) <==> Masks(p, q)
    ensures ValidPath(p) ==> ValidPath(ContentPath(v, dir, p))
  {
    StringHasNoSlash(v);
    var head := VNums.String(v) + "/" + dir + "/";
    var x, y := ContentPath(v, dir, p), ContentPath(v, dir, q);
    assert x == head + p && y == head + q;
    assert x[|head|..] == p && y[|head|..] == q;
    PrefixWithin(head, p, q);
    PrefixWithin(head, p + "/", q);
    assert head + (p + "/") == x + "/";
    if ValidPath(p) {
      ValidJoin(dir, p);
      ValidJoin(VNums.String(v), dir + "/" + p);
    }
  }

  /** The version, the content directory or else "content", and the logical path. */
  lemma ContentPathIs(v: VNum, contentDir: string, p: string)
    ensures ContentPath(v, DirName(contentDir), p) ==
            VNums.String(v) + (if contentDir == "" then "/content/" else "/" + contentDir + "/") + p
  {
    assert "/" + "content" + "/" == "/content/";
    var s, dir := VNums.String(v), DirName(contentDir);
    assert s + "/" + (dir + "/" + p) == s + ("/" + dir + "/") + p;
  }

  lemma DirNameValid(contentDir: string)
    requires ValidContentDir(contentDir)
    ensures ValidName(DirName(contentDir))
  {
  }

  // ---------------------------------------------------------------- well-built inventories

  /** Every path in the manifest is in the directory of one of the versions 1..head. */
  ghost predicate Homed(manifest: DigestMap, head: VNum) {
    forall p :: HasPath(manifest, p) ==> exists v :: v in VNums.Lineage(head) && InVersion(v, p)
  }

  ghost predicate GoodManifest(manifest: DigestMap, head: VNum) {
    ValidMap(manifest) && LowerKeys(manifest) && ConflictFreeMap(manifest) && Homed(manifest, head)
  }

  /** What holds while an inventory is being built; with at least one version it is then valid. */
  ghost predicate WellBuilt(inv: Inventory) {
    && inv.id != "" && !inv.spec.NoSpec? && ValidContentDir(inv.contentDir)
    && (inv.head.num > 0 ==> KnownAlgorithm(inv.alg) && VNums.Valid(inv.head))
    && (inv.head.num == 0 ==> inv.alg == "")
    && GoodManifest(inv.manifest, inv.head)
    && (forall d :: d in inv.manifest ==> Used(inv, d))
    && inv.versions.Keys == (set v | v in VNums.Lineage(inv.head))
    && (forall v :: v in inv.versions ==> ValidVersion(inv.manifest, inv.versions[v]))
  }

  /** What a new version must be like: valid, with the inventory's algorithm, and no conflicts between its new paths. */
  ghost predicate Suitable(inv: Inventory, v: NewVersion, now: nat) {
    && ValidMap(v.state) && NewPathsFree(inv.manifest, Norm(v.state))
    && KnownAlgorithm(v.alg) && (inv.alg == "" || inv.alg == v.alg)
    && ValidUser(v.user) && CreatedAt(v, now) != 0
    && VNums.Next(inv.head).Ok?
  }

  lemma LineageNext(head: VNum, next: VNum)
    requires VNums.Next(head) == Values.Ok(next)
    ensures (set v | v in VNums.Lineage(next)) == (set v | v in VNums.Lineage(head)) + {next}
    ensures next !in VNums.Lineage(head)
    ensures VNums.Valid(next)
  {
    assert forall v :: v in VNums.Lineage(next) <==> exists i :: 0 <= i < next.num && VNums.Lineage(next)[i] == v;
    assert VNums.Lineage(next) == VNums.Lineage(head) + [next];
  }

  lemma {:induction false} Pow10Positive(k: nat)
    ensures VNums.Pow10(k) > 0
  {
    if k > 0 { Pow10Positive(k - 1); }
  }

  lemma LineageValid(head: VNum)
    requires head.num > 0 ==> VNums.Valid(head)
    ensures forall v :: v in VNums.Lineage(head) ==> VNums.Valid(v)
  {
  }

  /** p is a logical path that gets new content. */
  ghost predicate NewLogical(m: DigestMap, state: DigestMap, p: string) {
    exists d :: IsNew(m, state, d) && p in state[d]
  }

  ghost predicate NewContent(m: DigestMap, state: DigestMap, head: VNum, dir: string, x: string) {
    exists p :: NewLogical(m, state, p) && x == ContentPath(head, dir, p)
  }

  /** The paths of a new manifest. */
  lemma OldOrNew(m: DigestMap, state: DigestMap, head: VNum, dir: string, x: string)
    requires NoEmpty(m)
    ensures HasPath(NewManifest(m, state, head, dir), x) <==> HasPath(m, x) || NewContent(m, state, head, dir, x)
  {
    var n := NewManifest(m, state, head, dir);
    if d :| d in n && x in n[d] {
      if IsNew(m, state, d) {
        var i :| 0 <= i < |n[d]| && n[d][i] == x;
        assert state[d][i] in state[d];
        assert NewLogical(m, state, state[d][i]);
      }
    }
    if d :| d in m && x in m[d] {
      assert d in n && n[d] == m[d];
    }
    if p :| NewLogical(m, state, p) && x == ContentPath(head, dir, p) {
      var d :| IsNew(m, state, d) && p in state[d];
      var i :| 0 <= i < |state[d]| && state[d][i] == p;
      assert n[d][i] == x;
    }
  }

  /** Paths in the directories of different versions are never equal or above one another. */
  lemma VersionsApart(v: VNum, w: VNum, x: string, y: string)
    requires VNums.Valid(v) && VNums.Valid(w) && v != w && InVersion(v, x) && InVersion(w, y)
    ensures x != y && !Conflict(x, y)
  {
    if x == y || Conflict(x, y) {
      assert HasPrefix(y, x);
      assert HasPrefix(y, VNums.String(v) + "/");
      InOneVersion(v, w, y);
    }
  }

  lemma OldNewApart(m: DigestMap, head: VNum, next: VNum, x: string, y: string)
    requires head.num > 0 ==> VNums.Valid(head)
    requires Homed(m, head) && VNums.Next(head) == Values.Ok(next) && HasPath(m, x) && InVersion(next, y)
    ensures x != y && !Conflict(x, y) && !Conflict(y, x)
  {
    LineageNext(head, next);
    LineageValid(head);
    var v :| v in VNums.Lineage(head) && InVersion(v, x);
    VersionsApart(v, next, x, y);
    VersionsApart(next, v, y, x);
  }

  /** Conflicts between two logical paths that get new content, and other such paths that mask them. */
  ghost predicate NewPathsFree(m: DigestMap, state: DigestMap) {
    forall p, q :: NewLogical(m, state, p) && NewLogical(m, state, q) ==> !Conflict(p, q)
  }

  ghost predicate NewPathsMasked(m: DigestMap, state: DigestMap) {
    forall p, q :: NewLogical(m, state, p) && NewLogical(m, state, q) && Conflict(p, q) ==>
      exists r :: NewLogical(m, state, r) && Masks(p, r)
  }

  /** A conflict in a new manifest is between the content paths of two new logical paths. */
  lemma ConflictIsNew(m: DigestMap, state: DigestMap, head: VNum, next: VNum, dir: string, x: string, y: string)
    requires head.num > 0 ==> VNums.Valid(head)
    requires GoodManifest(m, head) && VNums.Next(head) == Values.Ok(next) && ValidName(dir)
    requires var n := NewManifest(m, state, next, dir); HasPath(n, x) && HasPath(n, y)
    ensures Conflict(x, y) ==> NewContent(m, state, next, dir, x) && NewContent(m, state, next, dir, y)
  {
    OldOrNew(m, state, next, dir, x);
    OldOrNew(m, state, next, dir, y);
    if HasPath(m, x) && NewContent(m, state, next, dir, y) {
      NewIsInVersion(m, state, next, dir, y);
      OldNewApart(m, head, next, x, y);
    }
    if NewContent(m, state, next, dir, x) && HasPath(m, y) {
      NewIsInVersion(m, state, next, dir, x);
      OldNewApart(m, head, next, y, x);
    }
  }

  lemma NewIsInVersion(m: DigestMap, state: DigestMap, next: VNum, dir: string, x: string)
    requires ValidName(dir) && NewContent(m, state, next, dir, x)
    ensures InVersion(next, x) && (ValidMap(state) ==> ValidPath(x))
  {
    var p :| NewLogical(m, state, p) && x == ContentPath(next, dir, p);
    ContentPathFacts(next, dir, p, p);
    assert HasPath(state, p);
  }

  /** A new manifest has no conflicts if and only if the logical paths that get new content have none. */
  lemma NewConflictFree(m: DigestMap, state: DigestMap, head: VNum, next: VNum, dir: string)
    requires head.num > 0 ==> VNums.Valid(head)
    requires GoodManifest(m, head) && VNums.Next(head) == Values.Ok(next) && ValidName(dir)
    ensures ConflictFreeMap(NewManifest(m, state, next, dir)) <==> NewPathsFree(m, state)
  {
    var n := NewManifest(m, state, next, dir);
    forall x ensures HasPath(n, x) <==> HasPath(m, x) || NewContent(m, state, next, dir, x) {
      OldOrNew(m, state, next, dir, x);
    }
    forall p, q ensures Conflict(p, q) <==> Conflict(ContentPath(next, dir, p), ContentPath(next, dir, q)) {
      ContentPathFacts(next, dir, p, q);
    }
    forall x, y | HasPath(n, x) && HasPath(n, y) && Conflict(x, y) ensures !NewPathsFree(m, state) {
      ConflictIsNew(m, state, head, next, dir, x, y);
      var p :| NewLogical(m, state, p) && x == ContentPath(next, dir, p);
      var q :| NewLogical(m, state, q) && y == ContentPath(next, dir, q);
    }
    if p, q :| NewLogical(m, state, p) && NewLogical(m, state, q) && Conflict(p, q) {
      assert HasPath(n, ContentPath(next, dir, p)) && HasPath(n, ContentPath(next, dir, q));
    }
  }

  /** It is accepted if and only if all those conflicts are masked by logical paths that also get new content. */
  lemma NewAccepted(m: DigestMap, state: DigestMap, head: VNum, next: VNum, dir: string)
    requires head.num > 0 ==> VNums.Valid(head)
    requires GoodManifest(m, head) && VNums.Next(head) == Values.Ok(next) && ValidName(dir) && ValidMap(state)
    ensures PathsAccepted(NewManifest(m, state, next, dir)) <==> NewPathsMasked(m, state)
  {
    var n := NewManifest(m, state, next, dir);
    forall x | HasPath(n, x) ensures ValidPath(x) {
      OldOrNew(m, state, next, dir, x);
      if !HasPath(m, x) { NewIsInVersion(m, state, next, dir, x); }
    }
    if NewPathsMasked(m, state) {
      forall x, y | HasPath(n, x) && HasPath(n, y) && Conflict(x, y) ensures exists r :: HasPath(n, r) && Masks(x, r) {
        MaskIsThere(m, state, head, next, dir, x, y);
      }
    }
    if PathsAccepted(n) {
      forall p, q | NewLogical(m, state, p) && NewLogical(m, state, q) && Conflict(p, q)
        ensures exists r :: NewLogical(m, state, r) && Masks(p, r)
      {
        MaskIsNew(m, state, head, next, dir, p, q);
      }
    }
  }

  lemma MaskIsThere(m: DigestMap, state: DigestMap, head: VNum, next: VNum, dir: string, x: string, y: string)
    requires head.num > 0 ==> VNums.Valid(head)
    requires GoodManifest(m, head) && VNums.Next(head) == Values.Ok(next) && ValidName(dir) && NewPathsMasked(m, state)
    requires var n := NewManifest(m, state, next, dir); HasPath(n, x) && HasPath(n, y) && Conflict(x, y)
    ensures exists r :: HasPath(NewManifest(m, state, next, dir), r) && Masks(x, r)
  {
    ConflictIsNew(m, state, head, next, dir, x, y);
    var p :| NewLogical(m, state, p) && x == ContentPath(next, dir, p);
    var q :| NewLogical(m, state, q) && y == ContentPath(next, dir, q);
    ContentPathFacts(next, dir, p, q);
    var r :| NewLogical(m, state, r) && Masks(p, r);
    ContentPathFacts(next, dir, p, r);
    OldOrNew(m, state, next, dir, ContentPath(next, dir, r));
  }

  lemma MaskIsNew(m: DigestMap, state: DigestMap, head: VNum, next: VNum, dir: string, p: string, q: string)
    requires head.num > 0 ==> VNums.Valid(head)
    requires GoodManifest(m, head) && VNums.Next(head) == Values.Ok(next) && ValidName(dir)
    requires PathsAccepted(NewManifest(m, state, next, dir))
    requires NewLogical(m, state, p) && NewLogical(m, state, q) && Conflict(p, q)
    ensures exists r :: NewLogical(m, state, r) && Masks(p, r)
  {
    var n, x, y := NewManifest(m, state, next, dir), ContentPath(next, dir, p), ContentPath(next, dir, q);
    ContentPathFacts(next, dir, p, q);
    OldOrNew(m, state, next, dir, x);
    OldOrNew(m, state, next, dir, y);
    var z :| HasPath(n, z) && Masks(x, z);
    OldOrNew(m, state, next, dir, z);
    if HasPath(m, z) {
      NotBelowNew(m, state, head, next, dir, x, z);
    }
    var r :| NewLogical(m, state, r) && z == ContentPath(next, dir, r);
    ContentPathFacts(next, dir, p, r);
  }

  lemma NotBelowNew(m: DigestMap, state: DigestMap, head: VNum, next: VNum, dir: string, x: string, z: string)
    requires head.num > 0 ==> VNums.Valid(head)
    requires GoodManifest(m, head) && VNums.Next(head) == Values.Ok(next) && ValidName(dir)
    requires NewContent(m, state, next, dir, x) && HasPath(m, z)
    ensures !HasPrefix(z, x)
  {
    NewIsInVersion(m, state, next, dir, x);
    LineageNext(head, next);
    LineageValid(head);
    var w :| w in VNums.Lineage(head) && InVersion(w, z);
    if HasPrefix(z, x) {
      assert HasPrefix(z, VNums.String(next) + "/");
      InOneVersion(w, next, z);
    }
  }

  lemma ContentPathsDistinct(next: VNum, dir: string, ps: seq<string>)
    requires Distinct(ps) && ValidName(dir)
    ensures Distinct(ContentPaths(next, dir, ps))
  {
    var cs := ContentPaths(next, dir, ps);
    forall i, j | 0 <= i < j < |cs| ensures cs[i] != cs[j] {
      ContentPathFacts(next, dir, ps[i], ps[j]);
    }
  }

  /** An entry of the new manifest is an old entry, or lists new paths. */
  lemma EntryAt(m: DigestMap, state: DigestMap, next: VNum, dir: string, d: string, x: string)
    requires d in NewManifest(m, state, next, dir) && x in NewManifest(m, state, next, dir)[d] && ValidName(dir)
    ensures if IsNew(m, state, d) then InVersion(next, x) && exists p :: p in state[d] && x == ContentPath(next, dir, p)
            else d in m && x in m[d]
  {
    if IsNew(m, state, d) {
      var cs := ContentPaths(next, dir, state[d]);
      var i :| 0 <= i < |cs| && cs[i] == x;
      assert state[d][i] in state[d];
      ContentPathFacts(next, dir, state[d][i], state[d][i]);
    }
  }

  lemma NewDistinct(m: DigestMap, state: DigestMap, head: VNum, next: VNum, dir: string)
    requires head.num > 0 ==> VNums.Valid(head)
    requires GoodManifest(m, head) && VNums.Next(head) == Values.Ok(next) && ValidName(dir) && ValidMap(state)
    ensures DistinctPaths(NewManifest(m, state, next, dir)) && NoEmpty(NewManifest(m, state, next, dir))
  {
    var n := NewManifest(m, state, next, dir);
    forall d | d in n ensures Distinct(n[d]) && n[d] != [] {
      if IsNew(m, state, d) { ContentPathsDistinct(next, dir, state[d]); }
    }
    forall d, e, x | d in n && e in n && x in n[d] && x in n[e] ensures d == e {
      EntryAt(m, state, next, dir, d, x);
      EntryAt(m, state, next, dir, e, x);
      if IsNew(m, state, d) && IsNew(m, state, e) {
        var p :| p in state[d] && x == ContentPath(next, dir, p);
        var q :| q in state[e] && x == ContentPath(next, dir, q);
        ContentPathFacts(next, dir, p, q);
      } else if IsNew(m, state, d) {
        assert HasPath(m, x);
        OldNewApart(m, head, next, x, x);
      } else if IsNew(m, state, e) {
        assert HasPath(m, x);
        OldNewApart(m, head, next, x, x);
      }
    }
  }

  lemma NewHomed(m: DigestMap, state: DigestMap, head: VNum, next: VNum, dir: string)
    requires Homed(m, head) && VNums.Next(head) == Values.Ok(next) && ValidName(dir) && NoEmpty(m)
    ensures Homed(NewManifest(m, state, next, dir), next)
  {
    LineageNext(head, next);
    assert VNums.Lineage(next) == VNums.Lineage(head) + [next];
    forall x | HasPath(NewManifest(m, state, next, dir), x)
      ensures exists v :: v in VNums.Lineage(next) && InVersion(v, x)
    {
      OldOrNew(m, state, next, dir, x);
      if HasPath(m, x) {
        var v :| v in VNums.Lineage(head) && InVersion(v, x);
        assert v in VNums.Lineage(next);
      } else {
        NewIsInVersion(m, state, next, dir, x);
        assert next in VNums.Lineage(next);
      }
    }
  }

  lemma NewGoodManifest(m: DigestMap, state: DigestMap, head: VNum, next: VNum, dir: string)
    requires head.num > 0 ==> VNums.Valid(head)
    requires GoodManifest(m, head) && VNums.Next(head) == Values.Ok(next) && ValidName(dir)
    requires ValidMap(state) && LowerKeys(state) && NewPathsFree(m, state)
    ensures GoodManifest(NewManifest(m, state, next, dir), next)
  {
    NewConflictFree(m, state, head, next, dir);
    NewAccepted(m, state, head, next, dir);
    NewDistinct(m, state, head, next, dir);
    NewHomed(m, state, head, next, dir);
  }

  lemma NormConflictFree(m: DigestMap)
    requires ValidMap(m) && ConflictFreeMap(m)
    ensures ConflictFreeMap(Norm(m))
  {
    forall p, q | HasPath(Norm(m), p) && HasPath(Norm(m), q) ensures !Conflict(p, q) {
      NormPaths(m, p);
      NormPaths(m, q);
    }
  }

  /** Adding a suitable version always succeeds, and keeps an inventory well built. */
  lemma AddKeepsWellBuilt(inv: Inventory, v: NewVersion, now: nat)
    requires WellBuilt(inv) && Suitable(inv, v, now)
    ensures WithVersion(inv, v, now).Ok? && WellBuilt(WithVersion(inv, v, now).value)
  {
    var r := WithVersion(inv, v, now).value;
    var next, dir, state := r.head, DirName(inv.contentDir), Norm(v.state);
    NormValid(v.state);
    DirNameValid(inv.contentDir);
    LineageNext(inv.head, next);
    NewGoodManifest(inv.manifest, state, inv.head, next, dir);
    AddKeepsUsed(inv, state, r);
    AddKeepsVersions(inv, state, r);
  }

  /** A new version that may have conflicts. */
  ghost predicate Addable(inv: Inventory, v: NewVersion, now: nat) {
    && ValidMap(v.state) && KnownAlgorithm(v.alg) && (inv.alg == "" || inv.alg == v.alg)
    && ValidUser(v.user) && CreatedAt(v, now) != 0
    && VNums.Next(inv.head).Ok?
  }

  lemma AddedRest(inv: Inventory, v: NewVersion, now: nat)
    requires WellBuilt(inv) && Addable(inv, v, now)
    ensures WithVersion(inv, v, now).Ok?
    ensures ValidInventory(WithVersion(inv, v, now).value) <==> ValidMap(WithVersion(inv, v, now).value.manifest)
  {
    var r := WithVersion(inv, v, now).value;
    NormValid(v.state);
    LineageNext(inv.head, r.head);
    AddedIs(inv, v, now, r);
    AddKeepsUsed(inv, Norm(v.state), r);
    AddKeepsVersions(inv, Norm(v.state), r);
    assert r.versions.Keys == inv.versions.Keys + {r.head};
    ManifestDecides(r);
  }

  lemma ManifestDecides(inv: Inventory)
    requires inv.id != "" && !inv.spec.NoSpec? && KnownAlgorithm(inv.alg)
    requires VNums.Valid(inv.head) && ValidContentDir(inv.contentDir)
    requires forall d :: d in inv.manifest ==> Used(inv, d)
    requires inv.versions.Keys == (set v | v in VNums.Lineage(inv.head))
    requires forall v :: v in inv.versions ==> ValidVersion(inv.manifest, inv.versions[v])
    ensures ValidInventory(inv) <==> ValidMap(inv.manifest)
  {
  }

  lemma AddedIs(inv: Inventory, v: NewVersion, now: nat, r: Inventory)
    requires Addable(inv, v, now) && WithVersion(inv, v, now) == Values.Ok(r)
    requires VNums.Next(inv.head).value !in inv.versions
    ensures AddsVersion(inv, Norm(v.state), r) && r.versions[r.head].user == v.user
    ensures r.versions[r.head].created == CreatedAt(v, now) && r.alg == v.alg
    ensures r.id == inv.id && r.spec == inv.spec && r.contentDir == inv.contentDir
  {
  }

  /**
   Validation accepts such a version if and only if every conflict between logical paths that get new content is
   masked by another such path. The result is good if and only if there is no such conflict.
   */
  lemma AddIsValid(inv: Inventory, v: NewVersion, now: nat)
    requires WellBuilt(inv) && Addable(inv, v, now)
    ensures WithVersion(inv, v, now).Ok?
    ensures ValidInventory(WithVersion(inv, v, now).value) <==> NewPathsMasked(inv.manifest, Norm(v.state))
    ensures GoodInventory(WithVersion(inv, v, now).value) <==> NewPathsFree(inv.manifest, Norm(v.state))
  {
    var r := WithVersion(inv, v, now).value;
    NormValid(v.state);
    LineageNext(inv.head, r.head);
    AddedRest(inv, v, now);
    AddedManifest(inv, Norm(v.state), r);
  }

  lemma AddedManifest(inv: Inventory, state: DigestMap, r: Inventory)
    requires WellBuilt(inv) && AddsVersion(inv, state, r) && ValidMap(state) && LowerKeys(state)
    requires VNums.Next(inv.head) == Values.Ok(r.head)
    ensures LowerKeys(r.manifest) && NoDigestConflict(r.manifest) && NoEmpty(r.manifest) && DistinctPaths(r.manifest)
    ensures PathsAccepted(r.manifest) <==> NewPathsMasked(inv.manifest, state)
    ensures ConflictFreeMap(r.manifest) <==> NewPathsFree(inv.manifest, state)
    ensures Homed(r.manifest, r.head)
  {
    var dir := DirName(inv.contentDir);
    DirNameValid(inv.contentDir);
    NewDistinct(inv.manifest, state, inv.head, r.head, dir);
    NewHomed(inv.manifest, state, inv.head, r.head, dir);
    NewAccepted(inv.manifest, state, inv.head, r.head, dir);
    NewConflictFree(inv.manifest, state, inv.head, r.head, dir);
  }

  lemma FreshPaths(state: DigestMap, p: string)
    requires NoDigestConflict(state)
    ensures NewLogical(map[], Norm(state), p) <==> HasPath(state, p)
  {
    NormPaths(state, p);
    if d :| d in Norm(state) && p in Norm(state)[d] { assert IsNew(map[], Norm(state), d); }
  }

  lemma FreshConflicts(state: DigestMap)
    requires ValidMap(state)
    ensures NewPathsMasked(map[], Norm(state)) && (NewPathsFree(map[], Norm(state)) <==> ConflictFreeMap(state))
  {
    forall p ensures NewLogical(map[], Norm(state), p) <==> HasPath(state, p) { FreshPaths(state, p); }
  }

  /** In a new object every valid state is accepted, so conflicts of logical paths can become conflicts of files. */
  lemma FirstVersionIsValid(inv: Inventory, v: NewVersion, now: nat)
    requires WellBuilt(inv) && inv.manifest == map[] && Addable(inv, v, now)
    ensures WithVersion(inv, v, now).Ok? && ValidInventory(WithVersion(inv, v, now).value)
    ensures GoodInventory(WithVersion(inv, v, now).value) <==> ConflictFreeMap(v.state)
  {
    FreshConflicts(v.state);
    AddIsValid(inv, v, now);
  }

  lemma ListedState(state: DigestMap, s: seq<string>)
    requires Lists(state, s) && NoDigestConflict(state) && NoEmpty(state) && Accepts(s)
    ensures ValidMap(state) && (ConflictFreeMap(state) <==> ConflictFree(s))
  {
    ListedAccepts(state, s);
  }

  /** A state in which m masks the conflict of a with b. */
  lemma MaskedState(state: DigestMap, d: string, a: string, m: string, b: string)
    requires Masking(a, m, b) && state == map[d := [a, m, b]]
    ensures ValidMap(state) && !ConflictFreeMap(state)
  {
    var s := [a, m, b];
    AcceptsMasked(a, m, b);
    assert d in state && state[d] == s;
    ListedState(state, s);
  }

  /** A valid state that is refused, because the path that masks the conflict gets no new content. */
  lemma OldMask(manifest: DigestMap, state: DigestMap, d: string, e: string, a: string, m: string, b: string)
    requires Masking(a, m, b) && Lower(d) != Lower(e) && state == map[d := [a, b], e := [m]]
    requires PathsOf(manifest, d) == [] && PathsOf(manifest, e) != []
    ensures ValidMap(state) && !NewPathsMasked(manifest, state)
  {
    var s := [a, m, b];
    AcceptsMasked(a, m, b);
    assert state.Keys == {d, e} && state[d] == [a, b] && state[e] == [m];
    ListsTwo(state, d, e, s);
    ListedState(state, s);
    NotMasked(manifest, state, d, e, a, b);
  }

  lemma ListsTwo(state: DigestMap, d: string, e: string, s: seq<string>)
    requires state.Keys == {d, e} && d != e && |s| == 3 && Distinct(s) && state[d] == [s[0], s[2]] && state[e] == [s[1]]
    ensures Lists(state, s)
  {
    assert s[0] in state[d] && s[2] in state[d] && s[1] in state[e];
  }

  lemma NotMasked(manifest: DigestMap, state: DigestMap, d: string, e: string, a: string, b: string)
    requires state.Keys == {d, e} && state[d] == [a, b] && Conflict(a, b)
    requires PathsOf(manifest, d) == [] && PathsOf(manifest, e) != []
    ensures !NewPathsMasked(manifest, state)
  {
    assert a in state[d] && b in state[d];
    assert NewLogical(manifest, state, a) && NewLogical(manifest, state, b);
    forall r | NewLogical(manifest, state, r) ensures !Masks(a, r) {
      assert r in [a, b];
    }
  }

  lemma NewEntry(m: DigestMap, state: DigestMap, next: VNum, dir: string, d: string)
    ensures PathsOf(NewManifest(m, state, next, dir), d) ==
            if IsNew(m, state, d) then ContentPaths(next, dir, state[d]) else PathsOf(m, d)
  {
  }

  /** inv with one more version. */
  ghost predicate AddsVersion(inv: Inventory, state: DigestMap, r: Inventory) {
    && r.head !in inv.versions && r.head in r.versions && r.versions[r.head].state == state
    && r.versions == inv.versions[r.head := r.versions[r.head]]
    && r.manifest == NewManifest(inv.manifest, state, r.head, DirName(inv.contentDir))
  }

  lemma AddKeepsUsed(inv: Inventory, state: DigestMap, r: Inventory)
    requires AddsVersion(inv, state, r) && NoEmpty(state) && forall d :: d in inv.manifest ==> Used(inv, d)
    ensures forall d :: d in r.manifest ==> Used(r, d)
  {
    forall d | d in r.manifest ensures Used(r, d) {
      if IsNew(inv.manifest, state, d) {
        assert PathsOf(r.versions[r.head].state, d) != [];
      } else {
        var w :| w in inv.versions && PathsOf(inv.versions[w].state, d) != [];
        assert PathsOf(r.versions[w].state, d) != [];
      }
    }
  }

  lemma AddKeepsVersions(inv: Inventory, state: DigestMap, r: Inventory)
    requires AddsVersion(inv, state, r) && ValidMap(state)
    requires ValidUser(r.versions[r.head].user) && r.versions[r.head].created != 0
    requires forall w :: w in inv.versions ==> ValidVersion(inv.manifest, inv.versions[w])
    ensures forall w :: w in r.versions ==> ValidVersion(r.manifest, r.versions[w])
  {
    forall w | w in r.versions ensures ValidVersion(r.manifest, r.versions[w]) {
      forall d | d in r.versions[w].state ensures PathsOf(r.manifest, d) != [] {
        NewEntry(inv.manifest, state, r.head, DirName(inv.contentDir), d);
        assert w != r.head ==> PathsOf(inv.manifest, d) != [];
      }
    }
  }

  /** A well-built inventory that has a version passes validation. */
  lemma WellBuiltIsValid(inv: Inventory)
    requires WellBuilt(inv) && inv.head.num > 0
    ensures ValidInventory(inv)
  {
  }

  // ---------------------------------------------------------------- builds from a valid inventory

  lemma NormalKeepsUsed(inv: Inventory)
    requires ValidInventory(inv)
    ensures forall d :: d in Norm(inv.manifest) ==> Used(NormalInventory(inv), d)
  {
    forall e | e in Norm(inv.manifest) ensures Used(NormalInventory(inv), e) {
      var d := NormEntry(inv.manifest, e);
      var v :| v in inv.versions && PathsOf(inv.versions[v].state, d) != [];
      var state := inv.versions[v].state;
      assert Norm(state)[Lower(d)] == Sort(state[d]);
      assert PathsOf(NormalInventory(inv).versions[v].state, e) != [];
    }
  }

  lemma NormalKeepsVersion(inv: Inventory, v: VNum)
    requires ValidInventory(inv) && v in inv.versions
    ensures ValidVersion(Norm(inv.manifest), NormalInventory(inv).versions[v])
  {
    var state := inv.versions[v].state;
    NormValid(state);
    forall e | e in Norm(state) ensures PathsOf(Norm(inv.manifest), e) != [] {
      var d := NormEntry(state, e);
      assert PathsOf(inv.manifest, d) != [];
      assert Norm(inv.manifest)[Lower(d)] == Sort(inv.manifest[d]);
    }
  }

  /** An inventory to build on: valid, with conflict-free content paths under its versions' directories. */
  ghost predicate GoodInventory(inv: Inventory) {
    ValidInventory(inv) && ConflictFreeMap(inv.manifest) && Homed(inv.manifest, inv.head)
  }

  lemma NormalIsWellBuilt(inv: Inventory)
    requires GoodInventory(inv)
    ensures Normalizable(inv) && WellBuilt(NormalInventory(inv))
  {
    NormValid(inv.manifest);
    NormConflictFree(inv.manifest);
    forall p | HasPath(Norm(inv.manifest), p) ensures exists v :: v in VNums.Lineage(inv.head) && InVersion(v, p) {
      NormPaths(inv.manifest, p);
    }
    NormalKeepsUsed(inv);
    forall v | v in inv.versions ensures ValidVersion(Norm(inv.manifest), NormalInventory(inv).versions[v]) {
      NormalKeepsVersion(inv, v);
    }
  }

  /** Each new version is suitable for the inventory with the versions before it. */
  ghost predicate AllSuitable(inv: Inventory, vs: seq<NewVersion>, now: nat) {
    vs == [] || (
      && AllSuitable(inv, vs[..|vs| - 1], now)
      && var r := WithVersions(inv, vs[..|vs| - 1], now); r.Ok? && Suitable(r.value, vs[|vs| - 1], now))
  }

  lemma {:induction false} BuildSucceeds(inv: Inventory, vs: seq<NewVersion>, now: nat)
    requires WellBuilt(inv) && AllSuitable(inv, vs, now)
    ensures WithVersions(inv, vs, now).Ok? && WellBuilt(WithVersions(inv, vs, now).value)
    ensures vs != [] ==> WithVersions(inv, vs, now).value.head.num > 0
  {
    if vs != [] {
      BuildSucceeds(inv, vs[..|vs| - 1], now);
      AddKeepsWellBuilt(WithVersions(inv, vs[..|vs| - 1], now).value, vs[|vs| - 1], now);
    }
  }

  lemma InitialWellBuilt(b: InventoryBuilder)
    requires b.id != "" && !b.spec.NoSpec?
    requires b.prev.Some? ==>
               GoodInventory(b.prev.value) && b.head == b.prev.value.head && b.contDir == b.prev.value.contentDir
    requires b.prev.None? ==> b.head.num == 0 && ValidContentDir(b.contDir)
    ensures b.Initial().Ok? && WellBuilt(b.Initial().value)
  {
    if b.prev.Some? {
      NormalIsWellBuilt(b.prev.value);
      var n, i := NormalInventory(b.prev.value), b.Initial().value;
      forall d | d in i.manifest ensures Used(i, d) { assert Used(n, d); }
    }
  }

  /**
   From a good inventory, or from none, building any number of suitable versions succeeds, and gives
   an inventory that is again good: all state digests have content, all content is used, head is the last
   of the versions 1..n, and content paths do not conflict.
   */
  lemma FinalizeSucceeds(b: InventoryBuilder, now: nat)
    requires b.added != [] && b.id != "" && !b.spec.NoSpec?
    requires b.prev.Some? ==>
               GoodInventory(b.prev.value) && b.head == b.prev.value.head && b.contDir == b.prev.value.contentDir
    requires b.prev.None? ==> b.head.num == 0 && ValidContentDir(b.contDir)
    requires b.Initial().Ok? ==> AllSuitable(b.Initial().value, b.added, now)
    ensures b.Built(now).Ok? && GoodInventory(b.Built(now).value)
  {
    InitialWellBuilt(b);
    BuildIsGood(b.Initial().value, b.added, now);
  }

  lemma BuildIsGood(inv: Inventory, vs: seq<NewVersion>, now: nat)
    requires WellBuilt(inv) && AllSuitable(inv, vs, now) && vs != []
    ensures WithVersions(inv, vs, now).Ok? && GoodInventory(WithVersions(inv, vs, now).value)
  {
    BuildSucceeds(inv, vs, now);
    WellBuiltIsValid(WithVersions(inv, vs, now).value);
  }

  // ---------------------------------------------------------------- the content of a version

  /** pm has the manifest's paths in the directory of v, with their digests. */
  ghost predicate ContentOf(manifest: DigestMap, v: VNum, pm: PathMap) {
    forall x :: (x in pm <==> HasPath(manifest, x) && InVersion(v, x))
             && (x in pm ==> pm[x] in manifest && x in manifest[pm[x]])
  }

  method VersionContent(inv: Inventory, v: VNum) returns (pm: PathMap)
    ensures ContentOf(inv.manifest, v, pm)
  {
    pm := map[];
    var m, todo := inv.manifest, inv.manifest.Keys;
    while todo != {}
      invariant todo <= m.Keys
      invariant forall x :: x in pm <==> InVersion(v, x) && exists d :: d in m && d !in todo && x in m[d]
      invariant forall x :: x in pm ==> pm[x] in m && x in m[pm[x]]
      decreases |todo|
    {
      var d :| d in todo;
      todo := todo - {d};
      ghost var was := pm;
      for i := 0 to |m[d]|
        invariant forall x :: x in pm <==> x in was || (InVersion(v, x) && x in m[d][..i])
        invariant forall x :: x in pm ==> pm[x] in m && x in m[pm[x]]
      {
        if InVersion(v, m[d][i]) { pm := pm[m[d][i] := d]; }
      }
      assert m[d][..|m[d]|] == m[d];
    }
  }

  lemma ContentUnique(manifest: DigestMap, v: VNum, pm: PathMap, pm': PathMap)
    requires DistinctPaths(manifest) && ContentOf(manifest, v, pm) && ContentOf(manifest, v, pm')
    ensures pm == pm'
  {
  }

  /**
   The content of the new version directory is exactly what is missing: one file for every logical path
   of every digest of the new state that the old manifest has no content for.
   */
  lemma ContentIsWhatIsNew(inv: Inventory, v: NewVersion, now: nat, pm: PathMap, x: string, d: string)
    requires WellBuilt(inv) && Suitable(inv, v, now)
    requires var r := WithVersion(inv, v, now).value; ContentOf(r.manifest, r.head, pm)
    ensures var head, dir := WithVersion(inv, v, now).value.head, DirName(inv.contentDir);
      x in pm && pm[x] == d <==>
      IsNew(inv.manifest, Norm(v.state), d) && exists p :: p in Norm(v.state)[d] && x == ContentPath(head, dir, p)
  {
    var r := WithVersion(inv, v, now).value;
    DirNameValid(inv.contentDir);
    AddKeepsWellBuilt(inv, v, now);
    NormValid(v.state);
    NewAt(inv.manifest, Norm(v.state), inv.head, r.head, DirName(inv.contentDir), pm, x, d);
  }

  /** The logical path that a new content file is for. */
  lemma LogicalPathOf(inv: Inventory, v: NewVersion, now: nat, pm: PathMap, x: string) returns (p: string)
    requires WellBuilt(inv) && Suitable(inv, v, now)
    requires var r := WithVersion(inv, v, now).value; ContentOf(r.manifest, r.head, pm) && x in pm
    ensures x == ContentPath(WithVersion(inv, v, now).value.head, DirName(inv.contentDir), p)
  {
    var r := WithVersion(inv, v, now).value;
    ContentIsWhatIsNew(inv, v, now, pm, x, pm[x]);
    p :| p in Norm(v.state)[pm[x]] && x == ContentPath(r.head, DirName(inv.contentDir), p);
  }

  lemma NewAt(m: DigestMap, state: DigestMap, head: VNum, next: VNum, dir: string, pm: PathMap, x: string, d: string)
    requires head.num > 0 ==> VNums.Valid(head)
    requires GoodManifest(m, head) && VNums.Next(head) == Values.Ok(next) && ValidName(dir) && ValidMap(state)
    requires ContentOf(NewManifest(m, state, next, dir), next, pm) && DistinctPaths(NewManifest(m, state, next, dir))
    ensures x in pm && pm[x] == d <==> IsNew(m, state, d) && exists p :: p in state[d] && x == ContentPath(next, dir, p)
  {
    if x in pm && pm[x] == d {
      EntryAt(m, state, next, dir, d, x);
      if !IsNew(m, state, d) {
        assert HasPath(m, x);
        OldNewApart(m, head, next, x, x);
      }
    }
    if IsNew(m, state, d) && exists p :: p in state[d] && x == ContentPath(next, dir, p) {
      var p :| p in state[d] && x == ContentPath(next, dir, p);
      NewIsThere(m, state, next, dir, p, d);
    }
  }

  lemma NewIsThere(m: DigestMap, state: DigestMap, next: VNum, dir: string, p: string, d: string)
    requires IsNew(m, state, d) && p in state[d] && ValidName(dir)
    ensures var n, x := NewManifest(m, state, next, dir), ContentPath(next, dir, p);
      d in n && x in n[d] && HasPath(n, x) && InVersion(next, x)
  {
    var i :| 0 <= i < |state[d]| && state[d][i] == p;
    ContentPathFacts(next, dir, p, p);
    assert ContentPaths(next, dir, state[d])[i] == ContentPath(next, dir, p);
  }

  /** New content files never have the name of an inventory file in the version directory. */
  lemma ContentIsNotReserved(head: VNum, dir: string, p: string, base: string)
    requires ValidName(dir) && '/' !in base
    ensures ContentPath(head, dir, p) != VNums.String(head) + "/" + base
  {
    var s := VNums.String(head) + "/";
    var x := ContentPath(head, dir, p);
    assert x[|s| + |dir|] == '/';
    var y := s + base;
    assert |y| > |s| + |dir| ==> y[|s| + |dir|] == base[|dir|];
  }

  // ---------------------------------------------------------------- listing a path map in order

  function Names(s: seq<(string, string)>): (r: seq<string>)
    ensures |r| == |s|
  {
    seq(|s|, i requires 0 <= i < |s| => s[i].0)
  }

  /** s has the entries of pm, in the order of their paths. */
  ghost predicate Listing(pm: PathMap, s: seq<(string, string)>) {
    && Sorted(Names(s)) && Distinct(Names(s))
    && (forall i :: 0 <= i < |s| ==> s[i].0 in pm && pm[s[i].0] == s[i].1)
    && (forall p :: p in pm ==> p in Names(s))
  }

  method SortedPaths(pm: PathMap) returns (s: seq<(string, string)>)
    ensures Listing(pm, s)
  {
    var todo, keys := pm.Keys, [];
    while todo != {}
      invariant todo <= pm.Keys && Distinct(keys)
      invariant forall p :: p in keys <==> p in pm.Keys - todo
      decreases |todo|
    {
      var p :| p in todo;
      assert p !in keys;
      todo, keys := todo - {p}, keys + [p];
    }
    var sorted := SortStrings(keys);
    SortSorted(keys);
    SortKeepsDistinct(keys);
    SameElements(keys, sorted);
    s := seq(|sorted|, i requires 0 <= i < |sorted| => (sorted[i], if sorted[i] in pm then pm[sorted[i]] else ""));
    assert Names(s) == sorted;
    forall i | 0 <= i < |s| ensures s[i].0 in pm && pm[s[i].0] == s[i].1 {
      assert sorted[i] in sorted;
    }
  }

  /** The order of iteration over a map leaves no trace in its sorted listing. */
  lemma ListingUnique(pm: PathMap, s: seq<(string, string)>, t: seq<(string, string)>)
    requires Listing(pm, s) && Listing(pm, t)
    ensures s == t
  {
    DistinctCounts(Names(s));
    DistinctCounts(Names(t));
    forall p ensures multiset(Names(s))[p] == multiset(Names(t))[p] {
      assert p in Names(s) <==> p in pm;
      assert p in Names(t) <==> p in pm;
      assert p in Names(s) <==> multiset(Names(s))[p] > 0;
      assert p in Names(t) <==> multiset(Names(t))[p] > 0;
    }
    SortedUnique(Names(s), Names(t));
    forall i | 0 <= i < |s| ensures s[i] == t[i] {
      assert s[i].0 == Names(s)[i] && t[i].0 == Names(t)[i];
    }
  }
}
