/**
 Maps from digests to paths: which of them are valid, their normal form with lower-case digests and sorted paths,
 and when two of them are equal.
 */
module DigestMaps {
  import opened Values
  import opened Strings
  import opened PathChecks

  type DigestMap = map<string, seq<string>>
  type PathMap = map<string, string>

  // ---------------------------------------------------------------- digests

  predicate KnownAlgorithm(alg: string) {
    alg == "sha512" || alg == "sha256"
  }

  function LowerChar(c: char): char {
    if 'A' <= c <= 'Z' then c - 'A' + 'a' else c
  }

  function Lower(d: string): (r: string)
    ensures |r| == |d|
  {
    seq(|d|, i requires 0 <= i < |d| => LowerChar(d[i]))
  }

  lemma LowerCase()
    ensures Lower("ABXYZabxyz019-_") == "abxyzabxyz019-_"
  {
  }

  predicate HasLower(d: string) {
    exists i :: 0 <= i < |d| && 'a' <= d[i] <= 'z'
  }

  predicate HasUpper(d: string) {
    exists i :: 0 <= i < |d| && 'A' <= d[i] <= 'Z'
  }

  lemma LowerIdempotent(d: string)
    ensures Lower(Lower(d)) == Lower(d)
    ensures !HasUpper(d) ==> Lower(d) == d
  {
  }

  lemma LowerInjective(d: string, e: string)
    requires Lower(d) == Lower(e) && ((!HasUpper(d) && !HasUpper(e)) || (!HasLower(d) && !HasLower(e)))
    ensures d == e
  {
    forall i | 0 <= i < |d| ensures d[i] == e[i] {
      assert Lower(d)[i] == Lower(e)[i];
    }
  }

  ghost predicate NoDigestConflict(m: DigestMap) {
    forall d, e :: d in m && e in m && Lower(d) == Lower(e) ==> d == e
  }

  /** The shortcut for maps in a single letter case gives the same answer as the full check. */
  method ValidDigests(m: DigestMap) returns (ok: bool)
    ensures ok <==> NoDigestConflict(m)
  {
    var lower := exists d :: d in m && HasLower(d);
    var upper := exists d :: d in m && HasUpper(d);
    if !lower || !upper {
      forall d, e | d in m && e in m && Lower(d) == Lower(e) ensures d == e {
        LowerInjective(d, e);
      }
      return true;
    }
    var todo, norms := m.Keys, {};
    while todo != {}
      invariant todo <= m.Keys
      invariant forall n :: n in norms <==> exists d :: d in m && d !in todo && Lower(d) == n
      invariant forall d, e :: d in m && e in m && d !in todo && e !in todo && Lower(d) == Lower(e) ==> d == e
      decreases |todo|
    {
      var d :| d in todo;
      if Lower(d) in norms { return false; }
      todo, norms := todo - {d}, norms + {Lower(d)};
    }
    return true;
  }

  // ---------------------------------------------------------------- paths

  ghost predicate HasPath(m: DigestMap, p: string) {
    exists d :: d in m && p in m[d]
  }

  ghost predicate DistinctPaths(m: DigestMap) {
    && (forall d :: d in m ==> Distinct(m[d]))
    && (forall d, e, p :: d in m && e in m && p in m[d] && p in m[e] ==> d == e)
  }

  ghost predicate NoEmpty(m: DigestMap) {
    forall d :: d in m ==> m[d] != []
  }

  /** Valid paths; every conflict between them is masked by a third path. */
  ghost predicate PathsAccepted(m: DigestMap) {
    && (forall p :: HasPath(m, p) ==> ValidPath(p))
    && (forall p, q :: HasPath(m, p) && HasPath(m, q) && Conflict(p, q) ==> exists r :: HasPath(m, r) && Masks(p, r))
  }

  ghost predicate ValidMap(m: DigestMap) {
    NoDigestConflict(m) && NoEmpty(m) && DistinctPaths(m) && PathsAccepted(m)
  }

  ghost predicate ConflictFreeMap(m: DigestMap) {
    forall p, q :: HasPath(m, p) && HasPath(m, q) ==> !Conflict(p, q)
  }

  /** s lists every path of m as often as it occurs, as far as validity is concerned. */
  ghost predicate Lists(m: DigestMap, s: seq<string>) {
    (forall p :: p in s <==> HasPath(m, p)) && (Distinct(s) <==> DistinctPaths(m))
  }

  lemma ListsExtended(m: DigestMap, s: seq<string>, d: string, ps: seq<string>)
    requires Lists(m, s) && d !in m
    ensures Lists(m[d := ps], s + ps)
  {
    var m' := m[d := ps];
    forall p ensures p in s + ps <==> HasPath(m', p) {
      if HasPath(m, p) {
        var e :| e in m && p in m[e];
        assert e in m' && p in m'[e];
      }
      if p in ps { assert d in m' && p in m'[d]; }
    }
    DistinctAppend(s, ps);
    if DistinctPaths(m') {
      forall e | e in m ensures Distinct(m[e]) { assert m'[e] == m[e]; }
      forall e, f, p | e in m && f in m && p in m[e] && p in m[f] ensures e == f { assert p in m'[e] && p in m'[f]; }
      assert Distinct(m'[d]);
      forall p | p in s ensures p !in ps {
        var e :| e in m && p in m[e];
        assert p in m'[e];
        assert p in ps <==> p in m'[d];
      }
    }
    if Distinct(s + ps) {
      forall p | p in ps ensures !HasPath(m, p) { assert p !in s; }
    }
  }

  method AllPaths(m: DigestMap) returns (s: seq<string>)
    ensures Lists(m, s) && Sorted(s)
  {
    var todo := m.Keys;
    s := [];
    ghost var seen: DigestMap := map[];
    while todo != {}
      invariant todo <= m.Keys && seen.Keys == m.Keys - todo
      invariant forall d :: d in seen ==> seen[d] == m[d]
      invariant Lists(seen, s)
      decreases |todo|
    {
      var d :| d in todo;
      todo := todo - {d};
      ListsExtended(seen, s, d, m[d]);
      s := s + m[d];
      seen := seen[d := m[d]];
    }
    assert seen == m;
    SortSorted(s);
    SameElements(s, Sort(s));
    SortKeepsDistinct(s);
    s := SortStrings(s);
  }

  lemma ListedAccepts(m: DigestMap, s: seq<string>)
    requires Lists(m, s)
    ensures Accepts(s) <==> DistinctPaths(m) && PathsAccepted(m)
  {
    AcceptsExactly(s);
    if PathsAccepted(m) {
      forall p, q | p in s && q in s && Conflict(p, q) ensures exists r :: r in s && Masks(p, r) {
        var r :| HasPath(m, r) && Masks(p, r);
        assert r in s;
      }
    }
    if Consistent(s) {
      forall p, q | HasPath(m, p) && HasPath(m, q) && Conflict(p, q) ensures exists r :: HasPath(m, r) && Masks(p, r) {
        var r :| r in s && Masks(p, r);
        assert HasPath(m, r);
      }
    }
  }

  method Valid(m: DigestMap) returns (ok: bool)
    ensures ok <==> ValidMap(m)
  {
    ok := ValidDigests(m);
    if !ok { return; }
    if exists d :: d in m && m[d] == [] { return false; }
    var s := AllPaths(m);
    ListedAccepts(m, s);
    var a := new string[|s|](i requires 0 <= i < |s| => s[i]);
    assert a[..] == s;
    var e := ValidPaths(a);
    return e.NoError?;
  }

  // ---------------------------------------------------------------- normal form

  /** n is m with lower-case digests and sorted paths. */
  ghost predicate IsNormalOf(m: DigestMap, n: DigestMap) {
    && (forall d :: d in m ==> Lower(d) in n && n[Lower(d)] == Sort(m[d]))
    && (forall e :: e in n ==> exists d :: d in m && Lower(d) == e)
  }

  ghost function Norm(m: DigestMap): (n: DigestMap)
    requires NoDigestConflict(m)
    ensures IsNormalOf(m, n)
  {
    NormExists(m);
    var n :| IsNormalOf(m, n); n
  }

  lemma NormExists(m: DigestMap)
    requires NoDigestConflict(m)
    ensures exists n :: IsNormalOf(m, n)
  {
    var keys := set d | d in m :: Lower(d);
    var n: DigestMap := map e | e in keys :: Sort(m[KeyOf(m, e)]);
    assert IsNormalOf(m, n);
  }

  ghost function KeyOf(m: DigestMap, e: string): (d: string)
    requires exists d :: d in m && Lower(d) == e
    ensures d in m && Lower(d) == e
  {
    var d :| d in m && Lower(d) == e; d
  }

  lemma NormUnique(m: DigestMap, n: DigestMap, n': DigestMap)
    requires IsNormalOf(m, n) && IsNormalOf(m, n')
    ensures n == n'
  {
    forall e ensures e in n <==> e in n' {
      if e in n { var d :| d in m && Lower(d) == e; }
      if e in n' { var d :| d in m && Lower(d) == e; }
    }
    forall e | e in n ensures n[e] == n'[e] {
      var d :| d in m && Lower(d) == e;
    }
  }

  method Normalize(m: DigestMap) returns (r: Result<DigestMap>)
    ensures r.Ok? <==> ValidMap(m)
    ensures r.Ok? ==> r.value == Norm(m)
  {
    var ok := Valid(m);
    if !ok { return Err("invalid digest map"); }
    var todo := m.Keys;
    var norm: DigestMap := map[];
    while todo != {}
      invariant todo <= m.Keys
      invariant forall d :: d in m && d !in todo ==> Lower(d) in norm && norm[Lower(d)] == Sort(m[d])
      invariant forall e :: e in norm ==> exists d :: d in m && d !in todo && Lower(d) == e
      decreases |todo|
    {
      var d :| d in todo;
      todo := todo - {d};
      var normPaths := SortStrings(m[d]);
      norm := norm[Lower(d) := normPaths];
    }
    NormUnique(m, norm, Norm(m));
    return Ok(norm);
  }

  lemma NormPaths(m: DigestMap, p: string)
    requires NoDigestConflict(m)
    ensures HasPath(Norm(m), p) <==> HasPath(m, p)
  {
    var n := Norm(m);
    if HasPath(m, p) {
      var d :| d in m && p in m[d];
      SameElements(m[d], Sort(m[d]));
      assert p in n[Lower(d)];
    }
    if HasPath(n, p) {
      var e :| e in n && p in n[e];
      var d :| d in m && Lower(d) == e;
      SameElements(m[d], Sort(m[d]));
    }
  }

  predicate LowerKeys(m: DigestMap) {
    forall d :: d in m ==> Lower(d) == d
  }

  lemma NormEntry(m: DigestMap, e: string) returns (d: string)
    requires NoDigestConflict(m) && e in Norm(m)
    ensures d in m && Lower(d) == e && Lower(e) == e && Norm(m)[e] == Sort(m[d])
    ensures Sorted(Norm(m)[e]) && Sort(Norm(m)[e]) == Norm(m)[e]
    ensures Distinct(Norm(m)[e]) <==> Distinct(m[d])
    ensures forall p :: p in Norm(m)[e] <==> p in m[d]
  {
    d :| d in m && Lower(d) == e;
    LowerIdempotent(d);
    SortKeepsDistinct(m[d]);
    SortSorted(m[d]);
    SameElements(m[d], Sort(m[d]));
    SortSorted(Norm(m)[e]);
    SortedUnique(Sort(Norm(m)[e]), Norm(m)[e]);
  }

  lemma NormDistinct(m: DigestMap)
    requires ValidMap(m)
    ensures NoEmpty(Norm(m)) && DistinctPaths(Norm(m)) && LowerKeys(Norm(m))
  {
    var n := Norm(m);
    forall e | e in n ensures Lower(e) == e && n[e] != [] && Distinct(n[e]) {
      var d := NormEntry(m, e);
    }
    forall e, f, p | e in n && f in n && p in n[e] && p in n[f] ensures e == f {
      var d := NormEntry(m, e);
      var c := NormEntry(m, f);
    }
  }

  /** A normal form is valid, has lower-case digests, and is its own normal form. */
  lemma NormValid(m: DigestMap)
    requires ValidMap(m)
    ensures ValidMap(Norm(m)) && LowerKeys(Norm(m)) && Norm(Norm(m)) == Norm(m)
  {
    var n := Norm(m);
    NormDistinct(m);
    NormKeepsAccepted(m);
    forall e | e in n ensures Sort(n[e]) == n[e] {
      var d := NormEntry(m, e);
    }
    NormUnique(n, n, Norm(n));
  }

  lemma NormKeepsAccepted(m: DigestMap)
    requires ValidMap(m)
    ensures PathsAccepted(Norm(m))
  {
    var n := Norm(m);
    forall p ensures HasPath(n, p) <==> HasPath(m, p) { NormPaths(m, p); }
    forall p, q | HasPath(n, p) && HasPath(n, q) && Conflict(p, q) ensures exists r :: HasPath(n, r) && Masks(p, r) {
      var r :| HasPath(m, r) && Masks(p, r);
      assert HasPath(n, r);
    }
  }

  // ---------------------------------------------------------------- equality

  /** The comparison only validates its second argument. */
  method Eq(m: DigestMap, other: DigestMap) returns (eq: bool)
    ensures eq <==> EqVerdict(m, other)
  {
    if |m| != |other| { return false; }
    if |m| == 0 { return true; }
    var r := Normalize(other);
    if r.Err? { return false; }
    var todo := m.Keys;
    while todo != {}
      invariant todo <= m.Keys
      invariant forall d :: d in m && d !in todo ==> Matches(m, r.value, d)
      decreases |todo|
    {
      var d :| d in todo;
      todo := todo - {d};
      if m[d] == [] { assert !Matches(m, r.value, d); return false; }
      var otherPaths := if Lower(d) in r.value then r.value[Lower(d)] else [];
      if |m[d]| != |otherPaths| { assert !Matches(m, r.value, d); return false; }
      OtherSorted(other, Lower(d));
      var paths := SortStrings(m[d]);
      otherPaths := SortStrings(otherPaths);
      if paths != otherPaths { assert !Matches(m, r.value, d); return false; }
    }
    return true;
  }

  ghost predicate Matches(m: DigestMap, n: DigestMap, d: string)
    requires d in m
  {
    m[d] != [] && Lower(d) in n && n[Lower(d)] == Sort(m[d])
  }

  ghost predicate EqVerdict(m: DigestMap, other: DigestMap) {
    |m| == |other| && (m == map[] || (ValidMap(other) && forall d :: d in m ==> Matches(m, Norm(other), d)))
  }

  lemma OtherSorted(other: DigestMap, e: string)
    requires ValidMap(other)
    ensures e in Norm(other) ==> Sort(Norm(other)[e]) == Norm(other)[e]
  {
    if e in Norm(other) {
      var d := NormEntry(other, e);
    }
  }

  /** Lower-casing keeps the number of digests, as none of them coincide. */
  lemma {:induction false} ImageSize(s: set<string>)
    requires forall d, e :: d in s && e in s && Lower(d) == Lower(e) ==> d == e
    ensures |set d | d in s :: Lower(d)| == |s|
  {
    if s != {} {
      var d :| d in s;
      var rest := s - {d};
      ImageSize(rest);
      assert (set e | e in s :: Lower(e)) == (set e | e in rest :: Lower(e)) + {Lower(d)};
    }
  }

  lemma NormSize(m: DigestMap)
    requires NoDigestConflict(m)
    ensures |Norm(m)| == |m|
  {
    ImageSize(m.Keys);
    assert Norm(m).Keys == set d | d in m.Keys :: Lower(d);
  }

  lemma SubsetSameSize<T>(a: set<T>, b: set<T>)
    requires a <= b && |a| == |b|
    ensures a == b
  {
    if x :| x in b && x !in a {
      assert a <= b - {x};
      SubsetSize(a, b - {x});
    }
  }

  lemma {:induction false} SubsetSize<T>(a: set<T>, b: set<T>)
    requires a <= b
    ensures |a| <= |b|
  {
    if a != {} {
      var x :| x in a;
      SubsetSize(a - {x}, b - {x});
    }
  }

  /** By counting: if every digest of m is matched, and the sizes agree, nothing else is in the other map. */
  lemma MatchedIsNorm(m: DigestMap, other: DigestMap)
    requires NoDigestConflict(m) && ValidMap(other) && |m| == |other|
    requires forall d :: d in m ==> Matches(m, Norm(other), d)
    ensures Norm(m) == Norm(other)
  {
    NormSize(m);
    NormSize(other);
    forall e | e in Norm(m) ensures e in Norm(other) && Norm(m)[e] == Norm(other)[e] {
    }
    SubmapSameSize(Norm(m), Norm(other));
  }

  lemma SubmapSameSize(a: DigestMap, b: DigestMap)
    requires |a| == |b| && forall e :: e in a ==> e in b && a[e] == b[e]
    ensures a == b
  {
    assert |a.Keys| == |b.Keys|;
    SubsetSameSize(a.Keys, b.Keys);
  }

  lemma ValidByNorm(m: DigestMap)
    requires NoDigestConflict(m) && ValidMap(Norm(m))
    ensures ValidMap(m)
  {
    var n := Norm(m);
    forall d | d in m ensures m[d] != [] && Distinct(m[d]) { SortKeepsDistinct(m[d]); }
    forall d, e, p | d in m && e in m && p in m[d] && p in m[e] ensures d == e {
      SameElements(m[d], Sort(m[d]));
      SameElements(m[e], Sort(m[e]));
      assert p in n[Lower(d)] && p in n[Lower(e)];
    }
    forall p ensures HasPath(n, p) <==> HasPath(m, p) { NormPaths(m, p); }
    forall p, q | HasPath(m, p) && HasPath(m, q) && Conflict(p, q) ensures exists r :: HasPath(m, r) && Masks(p, r) {
      var r :| HasPath(n, r) && Masks(p, r);
      assert HasPath(m, r);
    }
  }

  /** If m has no digest conflict, Eq holds exactly for two valid maps with the same normal form. */
  lemma EqMeaning(m: DigestMap, other: DigestMap)
    requires NoDigestConflict(m)
    ensures EqVerdict(m, other) <==> ValidMap(m) && ValidMap(other) && Norm(m) == Norm(other)
  {
    if EqVerdict(m, other) {
      if m == map[] {
        assert other == map[];
      } else {
        MatchedIsNorm(m, other);
        NormValid(other);
        ValidByNorm(m);
      }
    }
    if ValidMap(m) && ValidMap(other) && Norm(m) == Norm(other) {
      NormSize(m);
      NormSize(other);
    }
  }

  /** On valid maps Eq is an equivalence. */
  lemma EqEquivalence(a: DigestMap, b: DigestMap, c: DigestMap)
    requires ValidMap(a) && ValidMap(b) && ValidMap(c)
    ensures EqVerdict(a, a)
    ensures EqVerdict(a, b) ==> EqVerdict(b, a)
    ensures EqVerdict(a, b) && EqVerdict(b, c) ==> EqVerdict(a, c)
  {
    EqMeaning(a, a);
    EqMeaning(a, b);
    EqMeaning(b, a);
    EqMeaning(b, c);
    EqMeaning(a, c);
  }
}
