/** Earlier versions keep their logical state in every later inventory. */
module History {
  import opened Values
  import opened Strings
  import opened DigestMaps
  import opened Inventories
  import VNums

  /** A version's state with the manifest that gives content for its digests. */
  datatype LogicalState = LogicalState(manifest: DigestMap, state: DigestMap)

  /** A digest that a lookup of p can return; an empty digest counts as not found. */
  predicate Finds(m: DigestMap, p: string, d: string) {
    p != "" && d != "" && d in m && p in m[d]
  }

  predicate ContentKept(a: LogicalState, d: string, b: LogicalState, e: string) {
    forall c :: c in PathsOf(a.manifest, d) ==> c in PathsOf(b.manifest, e)
  }

  /** b has the logical paths of a, and all of the content paths that a has for them. */
  ghost predicate ForwardMatches(a: LogicalState, b: LogicalState) {
    && |a.state| == |b.state|
    && (forall d, p :: d in a.state && p in a.state[d] ==> exists e :: Finds(b.state, p, e) && ContentKept(a, d, b, e))
    && (forall p :: HasPath(b.state, p) ==> exists d :: Finds(a.state, p, d))
  }

  method DigestFor(m: DigestMap, p: string) returns (d: string)
    ensures d == "" ==> p == "" || "" in m || !HasPath(m, p)
    ensures d != "" ==> Finds(m, p, d)
    ensures d == "" && DistinctPaths(m) ==> forall e :: !Finds(m, p, e)
  {
    if p == "" { return ""; }
    var todo := m.Keys;
    while todo != {}
      invariant todo <= m.Keys && forall d :: d in m && d !in todo ==> p !in m[d]
      decreases |todo|
    {
      d :| d in todo;
      todo := todo - {d};
      if p in m[d] { return; }
    }
    return "";
  }

  method ForwardMatch(a: LogicalState, b: LogicalState) returns (ok: bool)
    requires DistinctPaths(a.state) && DistinctPaths(b.state)
    ensures ok <==> ForwardMatches(a, b)
  {
    if |a.state| != |b.state| { return false; }
    var todo := a.state.Keys;
    while todo != {}
      invariant todo <= a.state.Keys
      invariant forall d, p :: d in a.state && d !in todo && p in a.state[d] ==>
                  exists e :: Finds(b.state, p, e) && ContentKept(a, d, b, e)
      decreases |todo|
    {
      var d :| d in todo;
      todo := todo - {d};
      ok := PathsKept(a, b, d);
      if !ok { return; }
    }
    ok := AllFound(a.state, b.state);
  }

  method PathsKept(a: LogicalState, b: LogicalState, d: string) returns (ok: bool)
    requires DistinctPaths(b.state) && d in a.state
    ensures ok <==> forall p :: p in a.state[d] ==> exists e :: Finds(b.state, p, e) && ContentKept(a, d, b, e)
  {
    for i := 0 to |a.state[d]|
      invariant forall p :: p in a.state[d][..i] ==> exists e :: Finds(b.state, p, e) && ContentKept(a, d, b, e)
    {
      var p := a.state[d][i];
      var bDig := DigestFor(b.state, p);
      assert p in a.state[d];
      if bDig == "" { return false; }
      if !ContentKept(a, d, b, bDig) {
        forall e | Finds(b.state, p, e) ensures !ContentKept(a, d, b, e) {
        }
        return false;
      }
      assert Finds(b.state, p, bDig) && ContentKept(a, d, b, bDig);
      assert a.state[d][..i + 1] == a.state[d][..i] + [p];
    }
    assert a.state[d][..|a.state[d]|] == a.state[d];
    return true;
  }

  method AllFound(a: DigestMap, b: DigestMap) returns (ok: bool)
    requires DistinctPaths(a)
    ensures ok <==> forall p :: HasPath(b, p) ==> exists d :: Finds(a, p, d)
  {
    var todo := b.Keys;
    while todo != {}
      invariant todo <= b.Keys
      invariant forall e, p :: e in b && e !in todo && p in b[e] ==> exists d :: Finds(a, p, d)
      decreases |todo|
    {
      var e :| e in todo;
      todo := todo - {e};
      for i := 0 to |b[e]|
        invariant forall p :: p in b[e][..i] ==> exists d :: Finds(a, p, d)
      {
        var d := DigestFor(a, b[e][i]);
        if d == "" {
          assert HasPath(b, b[e][i]);
          return false;
        }
        assert Finds(a, b[e][i], d);
        assert b[e][..i + 1] == b[e][..i] + [b[e][i]];
      }
      assert b[e][..|b[e]|] == b[e];
    }
    return true;
  }

  // ---------------------------------------------------------------- reflexive and transitive

  /** A valid state matches itself exactly when none of its digests is the empty string. */
  lemma ForwardMatchReflexive(a: LogicalState)
    requires ValidMap(a.state)
    ensures ForwardMatches(a, a) <==> "" !in a.state
  {
    if "" !in a.state {
      forall d, p | d in a.state && p in a.state[d] ensures Finds(a.state, p, d) {
        assert HasPath(a.state, p);
      }
    } else {
      var p := a.state[""][0];
      assert HasPath(a.state, p);
      forall d ensures !Finds(a.state, p, d) {}
    }
  }

  /** p has content c in a that it does not have in b. */
  ghost predicate LosesContent(a: LogicalState, b: LogicalState, p: string, c: string) {
    exists d, e ::
      && d in a.state && p in a.state[d] && e in b.state && p in b.state[e]
      && d in a.manifest && c in a.manifest[d] && !(e in b.manifest && c in b.manifest[e])
  }

  /**
   Valid states match if and only if they have as many digests and the same logical paths, no path has lost any of
   its content, and no digest is the empty string.
   */
  lemma ForwardMatchMeaning(a: LogicalState, b: LogicalState)
    requires ValidMap(a.state) && ValidMap(b.state)
    ensures ForwardMatches(a, b) <==>
            && |a.state| == |b.state| && "" !in a.state && "" !in b.state
            && (forall p :: HasPath(a.state, p) <==> HasPath(b.state, p))
            && forall p, c :: !LosesContent(a, b, p, c)
  {
    if ForwardMatches(a, b) { MatchKeeps(a, b); }
    if "" !in a.state && "" !in b.state && (forall p :: HasPath(a.state, p) <==> HasPath(b.state, p)) {
      if forall p, c :: !LosesContent(a, b, p, c) { KeepsMatch(a, b); }
    }
  }

  lemma FoundBy(m: DigestMap, d: string, p: string)
    requires ValidMap(m) && d in m && p in m[d]
    ensures HasPath(m, p) && p != "" && (Finds(m, p, d) <==> d != "")
    ensures forall e :: Finds(m, p, e) ==> e == d
  {
    assert HasPath(m, p);
    NoLeadingSlash(p);
  }

  lemma MatchKeeps(a: LogicalState, b: LogicalState)
    requires ValidMap(a.state) && ValidMap(b.state) && ForwardMatches(a, b)
    ensures "" !in a.state && "" !in b.state
    ensures forall p :: HasPath(a.state, p) <==> HasPath(b.state, p)
    ensures forall p, c :: !LosesContent(a, b, p, c)
  {
    MatchHasNoEmpty(a, b);
    forall p ensures HasPath(a.state, p) <==> HasPath(b.state, p) { MatchHasPath(a, b, p); }
    forall p, c ensures !LosesContent(a, b, p, c) { MatchLosesNothing(a, b, p, c); }
  }

  lemma MatchHasPath(a: LogicalState, b: LogicalState, p: string)
    requires ValidMap(a.state) && ValidMap(b.state) && ForwardMatches(a, b)
    ensures HasPath(a.state, p) <==> HasPath(b.state, p)
  {
    if d :| d in a.state && p in a.state[d] { MatchedPath(a, b, d, p); }
  }

  lemma MatchLosesNothing(a: LogicalState, b: LogicalState, p: string, c: string)
    requires ValidMap(a.state) && ValidMap(b.state) && ForwardMatches(a, b)
    ensures !LosesContent(a, b, p, c)
  {
    forall d, e | d in a.state && p in a.state[d] && e in b.state && p in b.state[e]
      ensures c in PathsOf(a.manifest, d) ==> c in PathsOf(b.manifest, e)
    {
      MatchedPath(a, b, d, p);
    }
  }

  lemma MatchHasNoEmpty(a: LogicalState, b: LogicalState)
    requires ValidMap(a.state) && ValidMap(b.state) && ForwardMatches(a, b)
    ensures "" !in a.state && "" !in b.state
  {
    forall d | d in a.state ensures d != "" { MatchedPath(a, b, d, a.state[d][0]); }
    forall e | e in b.state ensures e != "" {
      var p := b.state[e][0];
      assert HasPath(b.state, p);
      MatchHasPath(a, b, p);
      var d :| d in a.state && p in a.state[d];
      MatchedPath(a, b, d, p);
    }
  }

  /** p has one digest in each of two matching states. */
  lemma MatchedPath(a: LogicalState, b: LogicalState, d: string, p: string)
    requires ValidMap(a.state) && ValidMap(b.state) && ForwardMatches(a, b) && d in a.state && p in a.state[d]
    ensures d != "" && (forall f :: f in a.state && p in a.state[f] ==> f == d) && HasPath(b.state, p)
    ensures forall e :: e in b.state && p in b.state[e] ==> e != "" && ContentKept(a, d, b, e)
  {
    var e :| Finds(b.state, p, e) && ContentKept(a, d, b, e);
    FoundBy(b.state, e, p);
    var f :| Finds(a.state, p, f);
    FoundBy(a.state, f, p);
  }

  lemma KeepsMatch(a: LogicalState, b: LogicalState)
    requires ValidMap(a.state) && ValidMap(b.state) && "" !in a.state && "" !in b.state
    requires forall p :: HasPath(a.state, p) <==> HasPath(b.state, p)
    requires forall p, c :: !LosesContent(a, b, p, c)
    ensures |a.state| == |b.state| ==> ForwardMatches(a, b)
  {
    forall d, p | d in a.state && p in a.state[d] ensures exists e :: Finds(b.state, p, e) && ContentKept(a, d, b, e) {
      FoundBy(a.state, d, p);
      var e :| e in b.state && p in b.state[e];
      FoundBy(b.state, e, p);
      forall c | c in PathsOf(a.manifest, d) ensures c in PathsOf(b.manifest, e) {
        assert !LosesContent(a, b, p, c);
      }
    }
    forall p | HasPath(b.state, p) ensures exists d :: Finds(a.state, p, d) {
      var d :| d in a.state && p in a.state[d];
      FoundBy(a.state, d, p);
    }
  }

  lemma ForwardMatchTransitive(a: LogicalState, b: LogicalState, c: LogicalState)
    requires ForwardMatches(a, b) && ForwardMatches(b, c) && DistinctPaths(b.state)
    ensures ForwardMatches(a, c)
  {
    forall d, p | d in a.state && p in a.state[d] ensures exists f :: Finds(c.state, p, f) && ContentKept(a, d, c, f) {
      var e :| Finds(b.state, p, e) && ContentKept(a, d, b, e);
      var f :| Finds(c.state, p, f) && ContentKept(b, e, c, f);
      assert ContentKept(a, d, c, f);
    }
    forall p | HasPath(c.state, p) ensures exists d :: Finds(a.state, p, d) {
      var e :| Finds(b.state, p, e);
      assert HasPath(b.state, p);
    }
  }

  // ---------------------------------------------------------------- comparing inventories

  function StateOf(inv: Inventory, v: VNum): LogicalState
    requires v in inv.versions
  {
    LogicalState(inv.manifest, inv.versions[v].state)
  }

  /** The later inventory has version v, with a matching state. */
  ghost predicate KeepsVersion(earlier: Inventory, later: Inventory, v: VNum) {
    v in earlier.versions && v in later.versions && ForwardMatches(StateOf(earlier, v), StateOf(later, v))
  }

  predicate SameDetails(a: Version, b: Version) {
    a.created == b.created && a.message == b.message && a.user == b.user
  }

  /** later still has every version of earlier, with the same details and matching states. */
  ghost predicate Preserves(earlier: Inventory, later: Inventory) {
    forall v :: v in earlier.versions ==>
      KeepsVersion(earlier, later, v) && SameDetails(earlier.versions[v], later.versions[v])
  }

  datatype Codes = Codes(e046: bool, e066: bool, w011: bool)

  predicate Missing(earlier: Inventory, later: Inventory, v: VNum) {
    v in earlier.versions && v !in later.versions
  }

  ghost predicate Mismatch(earlier: Inventory, later: Inventory, v: VNum) {
    v in earlier.versions && v in later.versions && !KeepsVersion(earlier, later, v)
  }

  predicate Differs(earlier: Inventory, later: Inventory, v: VNum) {
    v in earlier.versions && v in later.versions && !SameDetails(earlier.versions[v], later.versions[v])
  }

  method CompareVersion(verInv: Inventory, rootInv: Inventory, v: VNum) returns (c: Codes)
    requires v in verInv.versions && ValidMap(verInv.versions[v].state)
    requires v in rootInv.versions ==> ValidMap(rootInv.versions[v].state)
    ensures c.e046 <==> Missing(verInv, rootInv, v)
    ensures c.e066 <==> Mismatch(verInv, rootInv, v)
    ensures c.w011 <==> Differs(verInv, rootInv, v)
  {
    if v !in rootInv.versions { return Codes(true, false, false); }
    var ok := ForwardMatch(StateOf(verInv, v), StateOf(rootInv, v));
    return Codes(false, !ok, !SameDetails(verInv.versions[v], rootInv.versions[v]));
  }

  ghost predicate Comparison(verInv: Inventory, rootInv: Inventory, lineage: seq<VNum>, c: Codes) {
    && (c.e046 <==> exists v :: v in lineage && Missing(verInv, rootInv, v))
    && (c.e066 <==> exists v :: v in lineage && Mismatch(verInv, rootInv, v))
    && (c.w011 <==> exists v :: v in lineage && Differs(verInv, rootInv, v))
  }

  method CompareLineage(verInv: Inventory, rootInv: Inventory, lineage: seq<VNum>) returns (codes: Codes)
    requires forall v :: v in lineage ==> v in verInv.versions && ValidMap(verInv.versions[v].state)
    requires forall v :: v in rootInv.versions ==> ValidMap(rootInv.versions[v].state)
    ensures Comparison(verInv, rootInv, lineage, codes)
  {
    codes := Codes(false, false, false);
    for i := 0 to |lineage|
      invariant Comparison(verInv, rootInv, lineage[..i], codes)
    {
      var c := CompareVersion(verInv, rootInv, lineage[i]);
      assert lineage[..i + 1] == lineage[..i] + [lineage[i]];
      codes := Codes(codes.e046 || c.e046, codes.e066 || c.e066, codes.w011 || c.w011);
    }
    assert lineage[..|lineage|] == lineage;
  }

  /** The version loop of the comparison of a version directory's inventory with the root inventory. */
  method CompareVersions(verInv: Inventory, rootInv: Inventory) returns (codes: Codes)
    requires ValidInventory(verInv) && ValidInventory(rootInv)
    ensures codes.e046 <==> exists v :: Missing(verInv, rootInv, v)
    ensures codes.e066 <==> exists v :: Mismatch(verInv, rootInv, v)
    ensures codes.w011 <==> exists v :: Differs(verInv, rootInv, v)
    ensures codes.e046 <==> exists v :: v in verInv.versions && v !in rootInv.versions
    ensures codes.e066 <==> exists v ::
              && v in verInv.versions && v in rootInv.versions
              && !ForwardMatches(LogicalState(verInv.manifest, verInv.versions[v].state),
                                 LogicalState(rootInv.manifest, rootInv.versions[v].state))
    ensures codes.w011 <==> exists v ::
              && v in verInv.versions && v in rootInv.versions
              && var x, y := verInv.versions[v], rootInv.versions[v];
                 x.message != y.message || x.user != y.user || x.created != y.created
  {
    forall v ensures v in verInv.versions <==> v in VNums.Lineage(verInv.head) { InLineage(verInv, v); }
    codes := CompareLineage(verInv, rootInv, VNums.Lineage(verInv.head));
  }

  lemma InLineage(inv: Inventory, v: VNum)
    requires ValidInventory(inv)
    ensures v in inv.versions <==> v in VNums.Lineage(inv.head)
    ensures v in inv.versions ==> ValidMap(inv.versions[v].state)
  {
    assert v in inv.versions <==> v in inv.versions.Keys;
  }

  // ---------------------------------------------------------------- builds carry versions over

  /** The later manifest has kept the content of every digest. */
  ghost predicate KeepsContent(earlier: DigestMap, later: DigestMap) {
    forall d, c :: c in PathsOf(earlier, d) ==> c in PathsOf(later, Lower(d))
  }

  /** The later inventory has the versions of the earlier one in normal form, and has kept all of their content. */
  ghost predicate Carried(earlier: Inventory, later: Inventory) {
    && (forall v :: v in earlier.versions ==> CarriedVersion(earlier, later, v))
    && KeepsContent(earlier.manifest, later.manifest)
  }

  ghost predicate CarriedVersion(earlier: Inventory, later: Inventory, v: VNum)
    requires v in earlier.versions
  {
    && v in later.versions && SameDetails(earlier.versions[v], later.versions[v])
    && ValidMap(earlier.versions[v].state) && later.versions[v].state == Norm(earlier.versions[v].state)
  }

  lemma CarriedTransitive(a: Inventory, b: Inventory, c: Inventory)
    requires Carried(a, b) && Carried(b, c)
    ensures Carried(a, c)
  {
    forall v | v in a.versions ensures CarriedVersion(a, c, v) {
      assert CarriedVersion(a, b, v) && CarriedVersion(b, c, v);
      NormValid(a.versions[v].state);
    }
    forall d, x | x in PathsOf(a.manifest, d) ensures x in PathsOf(c.manifest, Lower(d)) {
      LowerIdempotent(d);
      assert x in PathsOf(b.manifest, Lower(d));
      assert x in PathsOf(c.manifest, Lower(Lower(d)));
    }
  }

  lemma NormalCarries(inv: Inventory)
    requires Normalizable(inv)
    ensures Carried(inv, NormalInventory(inv)) && InNormalForm(NormalInventory(inv))
  {
    var n := NormalInventory(inv);
    forall v | v in inv.versions ensures CarriedVersion(inv, n, v) && NormalState(n.versions[v].state) {
      NormValid(inv.versions[v].state);
    }
    NormValid(inv.manifest);
    forall d, c | c in PathsOf(inv.manifest, d) ensures c in PathsOf(n.manifest, Lower(d)) {
      SameElements(inv.manifest[d], Sort(inv.manifest[d]));
    }
  }

  ghost predicate NormalState(m: DigestMap) {
    ValidMap(m) && Norm(m) == m
  }

  ghost predicate InNormalForm(inv: Inventory) {
    LowerKeys(inv.manifest) && forall v :: v in inv.versions ==> NormalState(inv.versions[v].state)
  }

  /** The versions are numbered up to head, so that the next number is new. */
  ghost predicate Numbered(inv: Inventory) {
    forall v :: v in inv.versions ==> v.num <= inv.head.num
  }

  lemma AddCarries(inv: Inventory, v: NewVersion, now: nat)
    requires InNormalForm(inv) && Numbered(inv) && WithVersion(inv, v, now).Ok?
    ensures var r := WithVersion(inv, v, now).value; Carried(inv, r) && InNormalForm(r) && Numbered(r)
  {
    var r := WithVersion(inv, v, now).value;
    NormValid(v.state);
    forall w | w in inv.versions ensures CarriedVersion(inv, r, w) {
      assert r.versions[w] == inv.versions[w];
    }
    forall d, c | c in PathsOf(inv.manifest, d) ensures c in PathsOf(r.manifest, Lower(d)) {
      assert d in inv.manifest && Lower(d) == d;
    }
  }

  lemma {:induction false} BuildCarries(inv: Inventory, vs: seq<NewVersion>, now: nat)
    requires InNormalForm(inv) && Numbered(inv) && WithVersions(inv, vs, now).Ok?
    ensures var r := WithVersions(inv, vs, now).value; Carried(inv, r) && InNormalForm(r) && Numbered(r)
  {
    if vs == [] {
      CarriesItself(inv);
    } else {
      var init := vs[..|vs| - 1];
      BuildCarries(inv, init, now);
      var r := WithVersions(inv, init, now).value;
      AddCarries(r, vs[|vs| - 1], now);
      CarriedTransitive(inv, r, WithVersions(inv, vs, now).value);
    }
  }

  lemma CarriesItself(inv: Inventory)
    requires InNormalForm(inv)
    ensures Carried(inv, inv)
  {
    forall d, c | c in PathsOf(inv.manifest, d) ensures c in PathsOf(inv.manifest, Lower(d)) {
      assert d in inv.manifest && Lower(d) == d;
    }
  }

  // ---------------------------------------------------------------- carried versions match

  lemma NormalMatches(manifest: DigestMap, state: DigestMap, later: DigestMap)
    requires ValidMap(state) && KeepsContent(manifest, later) && "" !in state
    ensures ForwardMatches(LogicalState(manifest, state), LogicalState(later, Norm(state)))
  {
    var a, b := LogicalState(manifest, state), LogicalState(later, Norm(state));
    NormSize(state);
    forall d, p | d in state && p in state[d] ensures Finds(b.state, p, Lower(d)) && ContentKept(a, d, b, Lower(d)) {
      NormFinds(state, d, p);
    }
    forall p | HasPath(b.state, p) ensures exists d :: Finds(state, p, d) {
      NormPaths(state, p);
      var d :| d in state && p in state[d];
      NormFinds(state, d, p);
      assert Finds(state, p, d);
    }
  }

  lemma EmptyDoesNotMatch(manifest: DigestMap, state: DigestMap, later: DigestMap)
    requires ValidMap(state) && "" in state
    ensures !ForwardMatches(LogicalState(manifest, state), LogicalState(later, Norm(state)))
  {
    EmptyIsNotFound(state);
    assert state[""][0] in state[""];
  }

  /** A version that was carried over matches exactly when its state has no empty digest. */
  lemma CarriedMatches(earlier: Inventory, later: Inventory, v: VNum)
    requires Carried(earlier, later) && v in earlier.versions
    ensures v in later.versions
    ensures ForwardMatches(StateOf(earlier, v), StateOf(later, v)) <==> "" !in earlier.versions[v].state
  {
    assert CarriedVersion(earlier, later, v);
    if "" in earlier.versions[v].state {
      EmptyDoesNotMatch(earlier.manifest, earlier.versions[v].state, later.manifest);
    } else {
      NormalMatches(earlier.manifest, earlier.versions[v].state, later.manifest);
    }
  }

  lemma NormFinds(m: DigestMap, d: string, p: string)
    requires ValidMap(m) && d in m && p in m[d] && d != ""
    ensures p != "" && Finds(Norm(m), p, Lower(d))
  {
    assert HasPath(m, p);
    SameElements(m[d], Sort(m[d]));
  }

  lemma EmptyIsNotFound(m: DigestMap)
    requires ValidMap(m) && "" in m
    ensures forall e :: !Finds(Norm(m), m[""][0], e)
  {
    var p := m[""][0];
    forall e ensures !Finds(Norm(m), p, e) {
      if Finds(Norm(m), p, e) {
        var d := NormEntry(m, e);
      }
    }
  }

  /** No version of inv has a digest that is the empty string. */
  predicate NoEmptyDigest(inv: Inventory) {
    forall v :: v in inv.versions ==> "" !in inv.versions[v].state
  }

  lemma CarriedIsPreserved(earlier: Inventory, later: Inventory)
    requires Carried(earlier, later)
    ensures Preserves(earlier, later) <==> NoEmptyDigest(earlier)
  {
    forall v | v in earlier.versions
      ensures CarriedVersion(earlier, later, v)
              && (KeepsVersion(earlier, later, v) <==> "" !in earlier.versions[v].state)
    {
      CarriedMatches(earlier, later, v);
    }
  }

  // ---------------------------------------------------------------- any number of builds

  /** next is what the builder makes of prev, with an id, a spec, and some versions to add; and it is valid. */
  ghost predicate Builds(prev: Inventory, next: Inventory, id: string, spec: Spec, vs: seq<NewVersion>, now: nat) {
    && ValidInventory(prev) && ValidInventory(next)
    && WithVersions(NormalInventory(prev).(id := id, spec := spec), vs, now) == Ok(next)
  }

  lemma BuildIsCarried(prev: Inventory, next: Inventory, id: string, spec: Spec, vs: seq<NewVersion>, now: nat)
    requires Builds(prev, next, id, spec, vs, now)
    ensures Carried(prev, next)
  {
    NormalCarries(prev);
    var start := NormalInventory(prev).(id := id, spec := spec);
    forall v | v in start.versions ensures v.num <= start.head.num {
      InLineage(prev, v);
    }
    BuildCarries(start, vs, now);
    StartCarries(prev, start);
    CarriedTransitive(prev, start, next);
  }

  lemma StartCarries(prev: Inventory, start: Inventory)
    requires Normalizable(prev) && start.versions == NormalInventory(prev).versions
             && start.manifest == NormalInventory(prev).manifest
    ensures Carried(prev, start)
  {
    NormalCarries(prev);
    forall v | v in prev.versions ensures CarriedVersion(prev, start, v) {
      assert CarriedVersion(prev, NormalInventory(prev), v);
    }
  }

  /** A successful Finalize is a build on the inventory that the builder was made with. */
  lemma FinalizeBuilds(b: InventoryBuilder, now: nat)
    requires b.prev.Some? && ValidInventory(b.prev.value)
    requires b.head == b.prev.value.head && b.contDir == b.prev.value.contentDir
    requires b.Built(now).Ok? && ValidInventory(b.Built(now).value)
    ensures Builds(b.prev.value, b.Built(now).value, b.id, b.spec, b.added, now)
  {
    assert b.Initial().value == NormalInventory(b.prev.value).(id := b.id, spec := b.spec);
  }

  /**
   A successful Finalize preserves every version of the inventory it started from, exactly if it has no empty digests.
   */
  lemma FinalizePreserves(b: InventoryBuilder, now: nat)
    requires b.prev.Some? && ValidInventory(b.prev.value)
    requires b.head == b.prev.value.head && b.contDir == b.prev.value.contentDir
    requires b.Built(now).Ok? && ValidInventory(b.Built(now).value)
    ensures Preserves(b.prev.value, b.Built(now).value) <==> NoEmptyDigest(b.prev.value)
  {
    FinalizeBuilds(b, now);
    BuildIsCarried(b.prev.value, b.Built(now).value, b.id, b.spec, b.added, now);
    CarriedIsPreserved(b.prev.value, b.Built(now).value);
  }

  ghost predicate BuiltOn(prev: Inventory, next: Inventory) {
    exists id, spec, vs, now :: Builds(prev, next, id, spec, vs, now)
  }

  lemma BuiltOnCarries(prev: Inventory, next: Inventory)
    requires BuiltOn(prev, next)
    ensures Carried(prev, next)
  {
    var id, spec, vs, now :| Builds(prev, next, id, spec, vs, now);
    BuildIsCarried(prev, next, id, spec, vs, now);
  }

  ghost predicate Follows(invs: seq<Inventory>, i: nat) {
    i + 1 < |invs| ==> BuiltOn(invs[i], invs[i + 1])
  }

  /** Any number of builds: each inventory was built on the one before it. */
  ghost predicate Chain(invs: seq<Inventory>) {
    (forall i :: 0 <= i < |invs| ==> ValidInventory(invs[i])) && (forall i: nat :: Follows(invs, i))
  }

  ghost predicate CarriedTo(invs: seq<Inventory>, i: nat, j: nat) {
    i >= j || j >= |invs| || Carried(invs[i], invs[j])
  }

  lemma ChainIsCarried(invs: seq<Inventory>)
    requires Chain(invs)
    ensures forall i: nat, j: nat :: j == i + 1 ==> CarriedTo(invs, i, j)
  {
    forall i: nat, j: nat | j == i + 1 ensures CarriedTo(invs, i, j) {
      assert Follows(invs, i);
      if j < |invs| { BuiltOnCarries(invs[i], invs[j]); }
    }
  }

  lemma {:induction false} CarriedAlong(invs: seq<Inventory>, i: nat, j: nat)
    requires (forall k: nat, l: nat :: l == k + 1 ==> CarriedTo(invs, k, l)) && i < j < |invs|
    ensures CarriedTo(invs, i, j)
    decreases j - i
  {
    var next := i + 1;
    assert CarriedTo(invs, i, next);
    if next < j {
      CarriedAlong(invs, next, j);
      CarriedTransitive(invs[i], invs[next], invs[j]);
    }
  }

  /**
   Along any chain of builds, comparing an earlier inventory with a later one never raises E046 or W011, and it
   raises E066 for exactly those versions whose state has an empty digest.
   */
  lemma HistoryCompares(invs: seq<Inventory>, i: nat, j: nat, v: VNum)
    requires Chain(invs) && i <= j < |invs|
    ensures !Missing(invs[i], invs[j], v) && !Differs(invs[i], invs[j], v)
    ensures Mismatch(invs[i], invs[j], v) <==> v in invs[i].versions && "" in invs[i].versions[v].state
  {
    if v in invs[i].versions {
      if i == j {
        InLineage(invs[i], v);
        ForwardMatchReflexive(StateOf(invs[i], v));
      } else {
        ChainIsCarried(invs);
        CarriedAlong(invs, i, j);
        assert CarriedVersion(invs[i], invs[j], v);
        CarriedMatches(invs[i], invs[j], v);
      }
    }
  }

  /**
   Along any chain of builds, every inventory preserves all versions of an earlier one that has no empty digests, and
   only then.
   */
  lemma HistoryIsPreserved(invs: seq<Inventory>, i: nat, j: nat)
    requires Chain(invs) && i <= j < |invs|
    ensures Preserves(invs[i], invs[j]) <==> NoEmptyDigest(invs[i])
  {
    forall v | v in invs[i].versions
      ensures v in invs[j].versions && SameDetails(invs[i].versions[v], invs[j].versions[v])
      ensures KeepsVersion(invs[i], invs[j], v) <==> "" !in invs[i].versions[v].state
    {
      HistoryCompares(invs, i, j, v);
    }
  }
}
