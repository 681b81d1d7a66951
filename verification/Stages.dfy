/** Merging digest maps, and overlaying stages. */
module Stages {
  import opened Values
  import opened Strings
  import opened PathChecks
  import opened DigestMaps

  // ---------------------------------------------------------------- path maps

  /** pm has the paths of m, each with a digest that m has for it. */
  ghost predicate IsPathMapOf(m: DigestMap, pm: PathMap) {
    forall p :: (p in pm <==> HasPath(m, p)) && (p in pm ==> pm[p] in m && p in m[pm[p]])
  }

  lemma PathMapUnique(m: DigestMap, pm: PathMap, pm': PathMap)
    requires DistinctPaths(m) && IsPathMapOf(m, pm) && IsPathMapOf(m, pm')
    ensures pm == pm'
  {
  }

  /** m, with p added to the paths of dig. */
  function AddPath(m: DigestMap, dig: string, p: string): DigestMap {
    var paths := if dig in m then m[dig] else [];
    if p in paths then m else m[dig := paths + [p]]
  }

  lemma AddPathKeeps(m: DigestMap, pm: PathMap, dig: string, p: string)
    requires IsPathMapOf(m, pm) && DistinctPaths(m) && NoEmpty(m) && p !in pm
    ensures var m' := AddPath(m, dig, p); IsPathMapOf(m', pm[p := dig]) && DistinctPaths(m') && NoEmpty(m')
  {
    var m' := AddPath(m, dig, p);
    assert !HasPath(m, p);
    assert dig in m' && p in m'[dig];
    forall q | q != p ensures HasPath(m', q) <==> HasPath(m, q) {
      if HasPath(m, q) {
        var d :| d in m && q in m[d];
        assert d in m' && q in m'[d];
      }
    }
  }

  method PathMapOf(m: DigestMap) returns (pm: PathMap)
    ensures IsPathMapOf(m, pm)
  {
    pm := map[];
    var todo := m.Keys;
    while todo != {}
      invariant todo <= m.Keys
      invariant forall p :: p in pm <==> exists d :: d in m && d !in todo && p in m[d]
      invariant forall p :: p in pm ==> pm[p] in m && p in m[pm[p]]
      decreases |todo|
    {
      var d :| d in todo;
      todo := todo - {d};
      var was := pm;
      for i := 0 to |m[d]|
        invariant forall p :: p in pm <==> p in was || p in m[d][..i]
        invariant forall p :: p in pm ==> pm[p] in m && p in m[pm[p]]
      {
        pm := pm[m[d][i] := d];
      }
      assert m[d][..|m[d]|] == m[d];
    }
  }

  /** A digest map from a path map; taking its path map gives the original back. */
  method DigestMapOf(pm: PathMap) returns (m: DigestMap)
    ensures IsPathMapOf(m, pm) && DistinctPaths(m) && NoEmpty(m)
  {
    m := map[];
    var todo := pm.Keys;
    ghost var seen: PathMap := map[];
    while todo != {}
      invariant todo <= pm.Keys && seen.Keys == pm.Keys - todo
      invariant forall p :: p in seen ==> seen[p] == pm[p]
      invariant IsPathMapOf(m, seen) && DistinctPaths(m) && NoEmpty(m)
      decreases |todo|
    {
      var p :| p in todo;
      todo := todo - {p};
      AddPathKeeps(m, seen, pm[p], p);
      if pm[p] in m { assert !HasPath(m, p); }
      m, seen := AddPath(m, pm[p], p), seen[p := pm[p]];
    }
    assert seen == pm;
  }

  /** The paths of a valid map with their normalized digests. */
  ghost function Normalized(m: DigestMap): (pm: PathMap)
    requires ValidMap(m)
    ensures IsPathMapOf(Norm(m), pm)
  {
    PathMapExists(Norm(m));
    var pm :| IsPathMapOf(Norm(m), pm); pm
  }

  lemma PathMapExists(m: DigestMap)
    ensures exists pm :: IsPathMapOf(m, pm)
  {
    var keys := set d, p | d in m && p in m[d] :: p;
    var pm: PathMap := map p | p in keys :: DigestOf(m, p);
    forall p ensures p in keys <==> HasPath(m, p) {}
    assert IsPathMapOf(m, pm);
  }

  ghost function DigestOf(m: DigestMap, p: string): (d: string)
    ensures HasPath(m, p) ==> d in m && p in m[d]
  {
    if d :| d in m && p in m[d] then d else ""
  }

  /** What Normalized gives for any path map of the normal form. */
  lemma NormalizedIs(m: DigestMap, pm: PathMap)
    requires ValidMap(m) && IsPathMapOf(Norm(m), pm)
    ensures Normalized(m) == pm
  {
    NormValid(m);
    PathMapUnique(Norm(m), pm, Normalized(m));
  }

  // ---------------------------------------------------------------- merge

  /** The two path maps agree where they overlap. */
  predicate Agree(a: PathMap, b: PathMap) {
    forall p :: p in a && p in b ==> a[p] == b[p]
  }

  ghost predicate AcceptedPaths(s: set<string>) {
    && (forall p :: p in s ==> ValidPath(p))
    && (forall p, q :: p in s && q in s && Conflict(p, q) ==> exists r :: r in s && Masks(p, r))
  }

  /** The merge succeeds. */
  ghost predicate Mergeable(m1: DigestMap, m2: DigestMap, replace: bool) {
    && ValidMap(m1) && ValidMap(m2)
    && (replace || Agree(Normalized(m1), Normalized(m2)))
    && AcceptedPaths(Normalized(m1).Keys + Normalized(m2).Keys)
  }

  method PathsOk(m: DigestMap) returns (ok: bool)
    requires DistinctPaths(m)
    ensures ok <==> PathsAccepted(m)
  {
    var s := AllPaths(m);
    ListedAccepts(m, s);
    var a := new string[|s|](i requires 0 <= i < |s| => s[i]);
    assert a[..] == s;
    var e := ValidPaths(a);
    return e.NoError?;
  }

  method AddAll(m: DigestMap, ghost base: PathMap, add: PathMap) returns (r: DigestMap)
    requires IsPathMapOf(m, base) && DistinctPaths(m) && NoEmpty(m) && base.Keys !! add.Keys
    ensures DistinctPaths(r) && NoEmpty(r) && IsPathMapOf(r, base + add)
  {
    r := m;
    var todo := add.Keys;
    ghost var seen := base;
    while todo != {}
      invariant todo <= add.Keys
      invariant forall p :: p in seen <==> p in base || (p in add && p !in todo)
      invariant forall p :: p in seen ==> seen[p] == if p in add then add[p] else base[p]
      invariant IsPathMapOf(r, seen) && DistinctPaths(r) && NoEmpty(r)
      decreases |todo|
    {
      var p :| p in todo;
      todo := todo - {p};
      AddPathKeeps(r, seen, add[p], p);
      r, seen := AddPath(r, add[p], p), seen[p := add[p]];
    }
    SumIs(base, add, seen);
  }

  lemma SumIs(base: PathMap, add: PathMap, sum: PathMap)
    requires forall p :: p in sum <==> p in base || p in add
    requires forall p :: p in sum ==> sum[p] == if p in add then add[p] else base[p]
    ensures sum == base + add
  {
  }

  lemma SumKeys(a: PathMap, b: PathMap)
    ensures (a + b).Keys == a.Keys + b.Keys
  {
  }

  lemma AcceptedAre(m: DigestMap, pm: PathMap)
    requires IsPathMapOf(m, pm)
    ensures PathsAccepted(m) <==> AcceptedPaths(pm.Keys)
  {
    forall p ensures HasPath(m, p) <==> p in pm.Keys {}
  }

  /** Paths of pm1 first, with the digests of pm2 where it has them, then the other paths of pm2. */
  method MergePaths(pm1: PathMap, pm2: PathMap) returns (m: DigestMap)
    ensures DistinctPaths(m) && NoEmpty(m) && IsPathMapOf(m, pm1 + pm2)
  {
    var first: PathMap := map p | p in pm1 :: if p in pm2 then pm2[p] else pm1[p];
    var rest: PathMap := map p | p in pm2 && p !in pm1 :: pm2[p];
    var none: PathMap := map[];
    m := AddAll(map[], none, first);
    m := AddAll(m, none + first, rest);
    FirstAndRest(pm1, pm2, first, rest, none);
  }

  lemma FirstAndRest(pm1: PathMap, pm2: PathMap, first: PathMap, rest: PathMap, none: PathMap)
    requires first == map p | p in pm1 :: if p in pm2 then pm2[p] else pm1[p]
    requires rest == map p | p in pm2 && p !in pm1 :: pm2[p]
    requires none == map[]
    ensures none + first + rest == pm1 + pm2
  {
  }

  method Merge(m1: DigestMap, m2: DigestMap, replace: bool) returns (r: Result<DigestMap>)
    ensures r.Ok? <==> Mergeable(m1, m2, replace)
    ensures r.Ok? ==> ValidMap(r.value) && Normalized(r.value) == Normalized(m1) + Normalized(m2)
    ensures r.Ok? ==> LowerKeys(r.value)
  {
    var n1 := Normalize(m1);
    if n1.Err? { return Err(n1.error); }
    var n2 := Normalize(m2);
    if n2.Err? { return Err(n2.error); }
    var pm1 := PathMapOf(n1.value);
    var pm2 := PathMapOf(n2.value);
    NormalizedIs(m1, pm1);
    NormalizedIs(m2, pm2);
    if !replace && !Agree(pm1, pm2) { return Err("path conflict"); }
    var merged := MergePaths(pm1, pm2);
    var ok := PathsOk(merged);
    SumKeys(pm1, pm2);
    AcceptedAre(merged, pm1 + pm2);
    if !ok { return Err("path conflict"); }
    NormDistinct(m1);
    NormDistinct(m2);
    MergedIsNormal(n1.value, n2.value, merged, pm1, pm2);
    return Ok(merged);
  }

  /** All digests of the merged map come from the two normal forms, so it is valid and its digests are in lower case. */
  lemma MergedIsNormal(n1: DigestMap, n2: DigestMap, m: DigestMap, pm1: PathMap, pm2: PathMap)
    requires LowerKeys(n1) && LowerKeys(n2) && IsPathMapOf(n1, pm1) && IsPathMapOf(n2, pm2)
    requires IsPathMapOf(m, pm1 + pm2) && DistinctPaths(m) && NoEmpty(m) && PathsAccepted(m)
    ensures ValidMap(m) && LowerKeys(m) && Normalized(m) == pm1 + pm2
  {
    var pm := pm1 + pm2;
    forall d | d in m ensures Lower(d) == d {
      var p := m[d][0];
      assert HasPath(m, p);
      assert pm[p] == d;
    }
    LowerNormal(m, pm);
    NormalizedIs(m, pm);
  }

  lemma LowerNormal(m: DigestMap, pm: PathMap)
    requires LowerKeys(m) && ValidMap(m) && IsPathMapOf(m, pm)
    ensures IsPathMapOf(Norm(m), pm)
  {
    forall p ensures (p in pm <==> HasPath(Norm(m), p)) && (p in pm ==> pm[p] in Norm(m) && p in Norm(m)[pm[p]]) {
      NormPaths(m, p);
      if p in pm {
        assert Norm(m)[Lower(pm[p])] == Sort(m[pm[p]]);
        SameElements(m[pm[p]], Sort(m[pm[p]]));
      }
    }
  }

  // ---------------------------------------------------------------- content sources

  /** Where new content comes from: a directory that has paths for digests, or a list of sources. */
  datatype ContentSource =
    | NoSource
    | Provider(content: map<string, string>)
    | Sources(list: seq<ContentSource>)

  function GetContent(src: ContentSource, dig: string): Option<string> {
    match src
    case NoSource => None
    case Provider(content) => if dig in content then Some(content[dig]) else None
    case Sources(list) => GetFirst(list, dig)
  }

  function GetFirst(list: seq<ContentSource>, dig: string): Option<string> {
    if list == [] then None
    else
      var r := GetContent(list[0], dig);
      if r.Some? then r else GetFirst(list[1..], dig)
  }

  function AsList(src: ContentSource): seq<ContentSource> {
    match src
    case NoSource => []
    case Provider(_) => [src]
    case Sources(list) => list
  }

  function AddSource(a: ContentSource, b: ContentSource): ContentSource {
    Sources(AsList(a) + AsList(b))
  }

  lemma {:induction false} GetFirstAppend(a: seq<ContentSource>, b: seq<ContentSource>, dig: string)
    ensures GetFirst(a + b, dig) == var r := GetFirst(a, dig); if r.Some? then r else GetFirst(b, dig)
  {
    if a == [] {
      assert a + b == b;
    } else {
      assert (a + b)[1..] == a[1..] + b;
      GetFirstAppend(a[1..], b, dig);
    }
  }

  /** A combined source gives what its first part has, and otherwise what its second part has. */
  lemma AddSourceContent(a: ContentSource, b: ContentSource, dig: string)
    ensures GetContent(AddSource(a, b), dig) == var r := GetContent(a, dig); if r.Some? then r else GetContent(b, dig)
  {
    GetFirstAppend(AsList(a), AsList(b), dig);
    AsListContent(a, dig);
    AsListContent(b, dig);
  }

  lemma AsListContent(a: ContentSource, dig: string)
    ensures GetFirst(AsList(a), dig) == GetContent(a, dig)
  {
    if a.Provider? {
      assert [a][1..] == [];
      assert GetFirst([], dig) == None;
    }
  }

  // ---------------------------------------------------------------- stages

  datatype StageData = StageData(state: DigestMap, alg: string, source: ContentSource)

  /** The stage has content for every digest in its state. */
  ghost predicate HasAllContent(state: DigestMap, source: ContentSource) {
    forall d :: d in state ==> GetContent(source, d).Some?
  }

  /** The stages laid over pm one after the other: a later stage wins. */
  ghost function Overlaid(pm: PathMap, stages: seq<StageData>): PathMap
    requires forall s :: s in stages ==> ValidMap(s.state)
  {
    if stages == [] then pm
    else Overlaid(pm, stages[..|stages| - 1]) + Normalized(stages[|stages| - 1].state)
  }

  class Stage {
    var state: DigestMap
    var alg: string
    var source: ContentSource

    constructor (data: StageData)
      ensures state == data.state && alg == data.alg && source == data.source
    {
      state, alg, source := data.state, data.alg, data.source;
    }

    /** A merge that fails leaves the stage without a state. */
    method Overlay(stages: seq<StageData>) returns (ok: bool)
      modifies this
      ensures alg == old(alg)
      ensures ok <==> KnownAlgorithm(alg) && ValidMap(old(state)) && forall i: nat :: Fits(old(state), alg, stages, i)
      ensures ok ==> KnownAlgorithm(alg) && LaidOver(old(state), alg, stages, state) && ValidMap(state)
      ensures ok && stages != [] ==> (HasAllContent(state, source) <==>
                                      ContentSurvives(old(state), old(source), stages))
      ensures ok && LowerKeys(old(state)) && HasAllContent(old(state), old(source)) && AllProvided(stages)
              ==> HasAllContent(state, source)
      ensures !ok ==> state == map[] || exists k :: 0 <= k <= |stages| && LaidOver(old(state), alg, stages[..k], state)
    {
      assert LaidOver(state, alg, stages[..0], state);
      if !KnownAlgorithm(alg) { return false; }
      ghost var was, wasSource := state, source;
      for i := 0 to |stages|
        invariant alg == old(alg)
        invariant LaidFirst(was, wasSource, alg, stages, i, state, source)
      {
        ghost var base, baseSource := state, source;
        FitsNext(was, alg, stages, i, state);
        ok := OverlayOne(stages[i]);
        if !ok {
          assert LaidOver(was, alg, stages[..i], base);
          return false;
        }
        LaidNext(was, wasSource, alg, stages, i, base, baseSource, state);
      }
      LaidAll(was, wasSource, alg, stages, state, source);
      ok := Valid(state);
    }

    method OverlayOne(over: StageData) returns (ok: bool)
      modifies this
      ensures alg == old(alg)
      ensures ok <==> alg == over.alg && Mergeable(old(state), over.state, true)
      ensures ok ==> ValidMap(state) && LowerKeys(state) && source == AddSource(old(source), over.source)
      ensures ok ==> Normalized(state) == Normalized(old(state)) + Normalized(over.state)
      ensures !ok ==> state == old(state) || state == map[]
    {
      if alg != over.alg { return false; }
      var merged := Merge(state, over.state, true);
      if merged.Err? {
        state := map[];
        return false;
      }
      state := merged.value;
      source := AddSource(source, over.source);
      return true;
    }
  }

  ghost predicate AllProvided(stages: seq<StageData>) {
    forall s :: s in stages ==> LowerKeys(s.state) && HasAllContent(s.state, s.source)
  }

  /** state is was with the stages laid over it, in order. */
  ghost predicate LaidOver(was: DigestMap, alg: string, stages: seq<StageData>, state: DigestMap) {
    if stages == [] then state == was
    else
      && (forall s :: s in stages ==> s.alg == alg && ValidMap(s.state))
      && ValidMap(was) && ValidMap(state) && LowerKeys(state)
      && Normalized(state) == Overlaid(Normalized(was), stages)
  }

  /** The next stage can be laid over: it has the same algorithm and is valid, and the union of paths is accepted. */
  ghost predicate Fits(was: DigestMap, alg: string, stages: seq<StageData>, i: nat) {
    i < |stages| && ValidMap(was) ==>
      && (forall s :: s in stages[..i + 1] ==> s.alg == alg && ValidMap(s.state))
      && AcceptedPaths(Overlaid(Normalized(was), stages[..i + 1]).Keys)
  }

  lemma FitsNext(was: DigestMap, alg: string, stages: seq<StageData>, i: nat, state: DigestMap)
    requires i < |stages| && LaidOver(was, alg, stages[..i], state)
    ensures stages[i].alg == alg && Mergeable(state, stages[i].state, true) <==>
            ValidMap(was) && Fits(was, alg, stages, i)
  {
    var over := stages[i];
    assert stages[..i + 1] == stages[..i] + [over];
    assert (forall s :: s in stages[..i + 1] ==> s.alg == alg && ValidMap(s.state)) <==>
           && over.alg == alg && ValidMap(over.state)
           && forall s :: s in stages[..i] ==> s.alg == alg && ValidMap(s.state);
    if ValidMap(was) && ValidMap(over.state) && over.alg == alg { PathsAfter(was, alg, stages, i, state); }
  }

  lemma PathsAfter(was: DigestMap, alg: string, stages: seq<StageData>, i: nat, state: DigestMap)
    requires i < |stages| && LaidOver(was, alg, stages[..i], state) && ValidMap(was) && ValidMap(stages[i].state)
    ensures forall s :: s in stages[..i + 1] ==> ValidMap(s.state)
    ensures ValidMap(state)
      && Overlaid(Normalized(was), stages[..i + 1]).Keys == Normalized(state).Keys + Normalized(stages[i].state).Keys
  {
    assert stages[..i + 1] == stages[..i] + [stages[i]];
    forall s | s in stages[..i + 1] ensures ValidMap(s.state) {}
    OverlaidOneMore(Normalized(was), stages, i);
    SumKeys(Normalized(state), Normalized(stages[i].state));
  }

  /** The first n stages have been laid over, and all of them could be. */
  ghost predicate LaidFirst(was: DigestMap, wasSource: ContentSource, alg: string, stages: seq<StageData>, n: nat,
                            state: DigestMap, source: ContentSource)
    requires n <= |stages|
  {
    && LaidOver(was, alg, stages[..n], state) && Gathered(wasSource, stages[..n], source)
    && (LowerKeys(was) && HasAllContent(was, wasSource) && AllProvided(stages)
        ==> LowerKeys(state) && HasAllContent(state, source))
    && (n > 0 ==> ValidMap(was)) && forall i: nat :: i < n ==> Fits(was, alg, stages, i)
  }

  lemma LaidNext(was: DigestMap, wasSource: ContentSource, alg: string, stages: seq<StageData>, i: nat,
                 base: DigestMap, baseSource: ContentSource, state: DigestMap)
    requires i < |stages| && LaidFirst(was, wasSource, alg, stages, i, base, baseSource)
    requires stages[i].alg == alg && Mergeable(base, stages[i].state, true) && ValidMap(state) && LowerKeys(state)
    requires Normalized(state) == Normalized(base) + Normalized(stages[i].state)
    ensures LaidFirst(was, wasSource, alg, stages, i + 1, state, AddSource(baseSource, stages[i].source))
  {
    FitsNext(was, alg, stages, i, base);
    LaidOneMore(was, alg, stages, i, base, state);
    GatheredOneMore(wasSource, stages, i, baseSource);
    assert stages[i] in stages;
    ProvidedContent(base, baseSource, stages[i], state);
  }

  lemma LaidAll(was: DigestMap, wasSource: ContentSource, alg: string, stages: seq<StageData>,
                state: DigestMap, source: ContentSource)
    requires LaidFirst(was, wasSource, alg, stages, |stages|, state, source)
    ensures LaidOver(was, alg, stages, state)
    ensures stages == [] ==> state == was
    ensures stages != [] ==> ValidMap(was) && ValidMap(state)
                             && (HasAllContent(state, source) <==> ContentSurvives(was, wasSource, stages))
  {
    assert stages[..|stages|] == stages;
    if stages != [] { OverlaidContent(was, wasSource, alg, stages, state, source); }
  }

  /** In the end a path has the digest that the last stage with this path gives it. */
  lemma {:induction false} LastStageWins(pm: PathMap, stages: seq<StageData>, i: nat, p: string)
    requires i < |stages| && ValidMap(stages[i].state) && p in Normalized(stages[i].state)
    requires forall s :: s in stages ==> ValidMap(s.state)
    requires forall j :: i < j < |stages| ==> !HasPath(stages[j].state, p)
    ensures p in Overlaid(pm, stages) && Overlaid(pm, stages)[p] == Normalized(stages[i].state)[p]
  {
    if i < |stages| - 1 {
      LastStageWins(pm, stages[..|stages| - 1], i, p);
      NotInLast(pm, stages, p);
    }
  }

  lemma NotInLast(pm: PathMap, stages: seq<StageData>, p: string)
    requires stages != [] && forall s :: s in stages ==> ValidMap(s.state)
    requires !HasPath(stages[|stages| - 1].state, p)
    ensures p in Overlaid(pm, stages) <==> p in Overlaid(pm, stages[..|stages| - 1])
    ensures p in Overlaid(pm, stages) ==> Overlaid(pm, stages)[p] == Overlaid(pm, stages[..|stages| - 1])[p]
  {
    NormPaths(stages[|stages| - 1].state, p);
  }

  /** A path that no stage has keeps its digest. */
  lemma {:induction false} OtherPathsStay(pm: PathMap, stages: seq<StageData>, p: string)
    requires forall s :: s in stages ==> ValidMap(s.state) && !HasPath(s.state, p)
    ensures p in Overlaid(pm, stages) <==> p in pm
    ensures p in pm ==> Overlaid(pm, stages)[p] == pm[p]
  {
    if stages != [] {
      OtherPathsStay(pm, stages[..|stages| - 1], p);
      NotInLast(pm, stages, p);
    }
  }

  lemma LaidOneMore(was: DigestMap, alg: string, stages: seq<StageData>, i: nat, base: DigestMap, state: DigestMap)
    requires i < |stages| && LaidOver(was, alg, stages[..i], base) && stages[i].alg == alg
    requires ValidMap(base) && ValidMap(stages[i].state) && ValidMap(state) && LowerKeys(state)
    requires Normalized(state) == Normalized(base) + Normalized(stages[i].state)
    ensures LaidOver(was, alg, stages[..i + 1], state)
  {
    var more := stages[..i + 1];
    forall s | s in more ensures s.alg == alg && ValidMap(s.state) {
      assert s in stages[..i] || s == stages[i];
    }
    OverlaidOneMore(Normalized(was), stages, i);
  }

  lemma OverlaidOneMore(pm: PathMap, stages: seq<StageData>, i: nat)
    requires i < |stages| && forall s :: s in stages[..i + 1] ==> ValidMap(s.state)
    ensures ValidMap(stages[i].state) && forall s :: s in stages[..i] ==> ValidMap(s.state)
    ensures Overlaid(pm, stages[..i + 1]) == Overlaid(pm, stages[..i]) + Normalized(stages[i].state)
  {
    var more := stages[..i + 1];
    assert more[..i] == stages[..i] && more[i] == stages[i];
    assert forall s :: s in stages[..i] ==> s in more;
    assert stages[i] in more;
  }

  /** The sources have content for the digest. */
  ghost predicate Provided(source: ContentSource, stages: seq<StageData>, d: string) {
    GetContent(source, d).Some? || exists s :: s in stages && GetContent(s.source, d).Some?
  }

  ghost predicate Gathered(was: ContentSource, stages: seq<StageData>, source: ContentSource) {
    forall d :: GetContent(source, d).Some? <==> Provided(was, stages, d)
  }

  lemma GatheredOneMore(was: ContentSource, stages: seq<StageData>, i: nat, source: ContentSource)
    requires i < |stages| && Gathered(was, stages[..i], source)
    ensures Gathered(was, stages[..i + 1], AddSource(source, stages[i].source))
  {
    assert stages[..i + 1] == stages[..i] + [stages[i]];
    forall d ensures GetContent(AddSource(source, stages[i].source), d).Some? <==> Provided(was, stages[..i + 1], d) {
      AddSourceContent(source, stages[i].source, d);
    }
  }

  /** Among all sources there is content for the lower-case form of the digest of every path that is left in the end. */
  ghost predicate ContentSurvives(was: DigestMap, source: ContentSource, stages: seq<StageData>) {
    && ValidMap(was) && (forall s :: s in stages ==> ValidMap(s.state))
    && var pm := Overlaid(Normalized(was), stages);
      forall p :: p in pm ==> Provided(source, stages, pm[p])
  }

  lemma OverlaidContent(was: DigestMap, wasSource: ContentSource, alg: string, stages: seq<StageData>,
                        state: DigestMap, source: ContentSource)
    requires stages != [] && LaidOver(was, alg, stages, state) && Gathered(wasSource, stages, source)
    ensures HasAllContent(state, source) <==> ContentSurvives(was, wasSource, stages)
  {
    ContentOfPaths(state, source);
  }

  lemma NormalizedAt(m: DigestMap, d: string, p: string)
    requires ValidMap(m) && d in m && p in m[d]
    ensures p in Normalized(m) && Normalized(m)[p] == Lower(d)
  {
    SameElements(m[d], Sort(m[d]));
    assert p in Norm(m)[Lower(d)];
    NormDistinct(m);
    assert HasPath(Norm(m), p);
  }

  lemma DigestOfPath(m: DigestMap, p: string) returns (d: string)
    requires ValidMap(m) && p in Normalized(m)
    ensures d in m && p in m[d] && Lower(d) == Normalized(m)[p]
  {
    d := NormEntry(m, Normalized(m)[p]);
  }

  lemma ContentOfPaths(m: DigestMap, source: ContentSource)
    requires ValidMap(m) && LowerKeys(m)
    ensures HasAllContent(m, source) <==>
            forall p :: p in Normalized(m) ==> GetContent(source, Normalized(m)[p]).Some?
  {
    forall p | p in Normalized(m) ensures Normalized(m)[p] in m {
      var d := DigestOfPath(m, p);
    }
    forall d | d in m ensures exists p :: p in Normalized(m) && Normalized(m)[p] == d {
      NormalizedAt(m, d, m[d][0]);
    }
  }

  /** Digest d of base or of over still has a path when over has been laid over base. */
  ghost predicate Survives(base: DigestMap, over: DigestMap, d: string) {
    d in over || (d in base && exists p :: p in base[d] && !HasPath(over, p))
  }

  lemma SurvivorIsMerged(base: DigestMap, over: DigestMap, merged: DigestMap, d: string)
    requires ValidMap(base) && ValidMap(over) && ValidMap(merged) && LowerKeys(merged)
    requires Normalized(merged) == Normalized(base) + Normalized(over) && Survives(base, over, d)
    ensures Lower(d) in merged
  {
    var p;
    if d in over {
      p := over[d][0];
      NormalizedAt(over, d, p);
    } else {
      p :| p in base[d] && !HasPath(over, p);
      NormalizedAt(base, d, p);
      NormPaths(over, p);
    }
    var e := DigestOfPath(merged, p);
  }

  lemma MergedSurvives(base: DigestMap, over: DigestMap, merged: DigestMap, e: string) returns (d: string)
    requires ValidMap(base) && ValidMap(over) && ValidMap(merged) && LowerKeys(merged)
    requires Normalized(merged) == Normalized(base) + Normalized(over) && e in merged
    ensures Survives(base, over, d) && Lower(d) == e
  {
    var p := merged[e][0];
    NormalizedAt(merged, e, p);
    NormPaths(over, p);
    if p in Normalized(over) { d := DigestOfPath(over, p); } else { d := DigestOfPath(base, p); }
  }

  /**
   Overlaying keeps content available if and only if there is some for the lower-case form of each digest that
   survives: digests of the state are put in lower case, and those of the sources are not.
   */
  lemma MergedContent(base: DigestMap, source: ContentSource, over: StageData, merged: DigestMap)
    requires ValidMap(base) && ValidMap(over.state) && ValidMap(merged) && LowerKeys(merged)
    requires Normalized(merged) == Normalized(base) + Normalized(over.state)
    ensures HasAllContent(merged, AddSource(source, over.source)) <==>
            forall d :: Survives(base, over.state, d) ==> Provided(source, [over], Lower(d))
  {
    var sum := AddSource(source, over.source);
    forall e ensures GetContent(sum, e).Some? <==> Provided(source, [over], e) {
      AddSourceContent(source, over.source, e);
      assert over in [over];
    }
    forall d | Survives(base, over.state, d) ensures Lower(d) in merged {
      SurvivorIsMerged(base, over.state, merged, d);
    }
    forall e | e in merged ensures exists d :: Survives(base, over.state, d) && Lower(d) == e {
      var d := MergedSurvives(base, over.state, merged, e);
    }
  }

  /** So content for every digest is kept when all digests are in lower case. */
  lemma ProvidedContent(base: DigestMap, source: ContentSource, over: StageData, merged: DigestMap)
    requires ValidMap(base) && ValidMap(over.state) && ValidMap(merged) && LowerKeys(merged)
    requires Normalized(merged) == Normalized(base) + Normalized(over.state)
    ensures LowerKeys(base) && LowerKeys(over.state) && HasAllContent(base, source)
            && HasAllContent(over.state, over.source)
            ==> HasAllContent(merged, AddSource(source, over.source))
  {
    MergedContent(base, source, over, merged);
    assert over in [over];
  }

  /**
   A stage with one path, whose digest is not in lower case, is laid over an empty stage. If its source has content
   for just that digest, there is no content for the digest of the result.
   */
  lemma OtherCaseIsLost(base: DigestMap, over: DigestMap, d: string, file: string, merged: DigestMap)
    requires base == map[] && over == map[d := ["a"]] && Lower(d) != d
    requires ValidMap(base) && ValidMap(over) && ValidMap(merged) && LowerKeys(merged)
    requires Normalized(merged) == Normalized(base) + Normalized(over)
    ensures var source := Provider(map[d := file]);
      HasAllContent(over, source) && !HasAllContent(merged, AddSource(NoSource, source))
  {
    var source := Provider(map[d := file]);
    SurvivorIsMerged(base, over, merged, d);
    AddSourceContent(NoSource, source, Lower(d));
    assert GetContent(source, Lower(d)).None?;
  }

  /** Such stages can be merged. */
  lemma OnePathMerges(base: DigestMap, over: DigestMap, d: string)
    requires base == map[] && over == map[d := ["a"]]
    ensures Mergeable(base, over, true)
  {
    assert over.Keys == {d};
    assert forall p :: HasPath(over, p) ==> p == "a";
    assert ValidMap(base) && ValidMap(over);
    forall p ensures p in Normalized(base).Keys + Normalized(over).Keys ==> p == "a" {
      NormPaths(base, p);
      NormPaths(over, p);
    }
  }
}
