/** Comparing digest maps when a digest of the receiver has two spellings. */
module DigestConflicts {
  import opened Strings
  import opened PathChecks
  import opened DigestMaps

  /**
   All spellings of a digest list the same paths, different digests list different ones, and all paths are valid.
   Conflicts between files and directories do not matter.
   */
  ghost predicate Foolable(m: DigestMap) {
    && NoEmpty(m)
    && (forall d :: d in m ==> Distinct(m[d]))
    && (forall d, e :: d in m && e in m && Lower(d) == Lower(e) ==> Sort(m[d]) == Sort(m[e]))
    && (forall d, e, p :: d in m && e in m && p in m[d] && p in m[e] ==> Lower(d) == Lower(e))
    && (forall p :: HasPath(m, p) ==> ValidPath(p))
  }

  // ---------------------------------------------------------------- only such receivers

  lemma MatchedPaths(m: DigestMap, n: DigestMap, d: string)
    requires d in m && Matches(m, n, d) && DistinctPaths(n)
    ensures Distinct(m[d]) && forall p :: p in m[d] <==> p in n[Lower(d)]
  {
    SortKeepsDistinct(m[d]);
    SameElements(m[d], Sort(m[d]));
  }

  lemma MatchedIsFoolable(m: DigestMap, n: DigestMap)
    requires DistinctPaths(n) && PathsAccepted(n) && forall d :: d in m ==> Matches(m, n, d)
    ensures Foolable(m)
  {
    forall d | d in m ensures Distinct(m[d]) && forall p :: p in m[d] <==> p in n[Lower(d)] {
      MatchedPaths(m, n, d);
    }
    forall p | HasPath(m, p) ensures ValidPath(p) {
      var d :| d in m && p in m[d];
      assert HasPath(n, p);
    }
  }

  lemma EqualIsFoolable(m: DigestMap, other: DigestMap)
    requires !NoDigestConflict(m) && EqVerdict(m, other)
    ensures Foolable(m)
  {
    NormValid(other);
    MatchedIsFoolable(m, Norm(other));
  }

  // ---------------------------------------------------------------- the lower-case part of the other map

  ghost function LowerKeysOf(m: DigestMap): set<string> {
    set d | d in m :: Lower(d)
  }

  /** One entry for all spellings of a digest. */
  ghost function Collapsed(m: DigestMap): (n: DigestMap)
    ensures n.Keys == LowerKeysOf(m)
  {
    map e | e in LowerKeysOf(m) :: Sort(m[KeyOf(m, e)])
  }

  lemma CollapsedAt(m: DigestMap, d: string)
    requires Foolable(m) && d in m
    ensures Lower(d) in Collapsed(m) && Collapsed(m)[Lower(d)] == Sort(m[d])
    ensures Distinct(Sort(m[d])) && Sort(m[d]) != [] && forall p :: p in Sort(m[d]) <==> p in m[d]
  {
    SortKeepsDistinct(m[d]);
    SameElements(m[d], Sort(m[d]));
  }

  lemma {:induction false} ImageAtMost(s: set<string>)
    ensures |set d | d in s :: Lower(d)| <= |s|
  {
    if s != {} {
      var x :| x in s;
      ImageAtMost(s - {x});
      assert (set d | d in s :: Lower(d)) == (set d | d in s - {x} :: Lower(d)) + {Lower(x)};
    }
  }

  /** Two spellings of one digest make the image smaller. */
  lemma ConflictShrinks(m: DigestMap)
    requires !NoDigestConflict(m)
    ensures |LowerKeysOf(m)| < |m|
  {
    var d, e :| d in m && e in m && Lower(d) == Lower(e) && d != e;
    ImageAtMost(m.Keys - {d});
    assert e in m.Keys - {d};
    assert LowerKeysOf(m) == (set x | x in m.Keys - {d} :: Lower(x));
  }

  // ---------------------------------------------------------------- entries that only fill up the other map

  ghost function Run(c: char, k: nat): (s: string)
    ensures |s| == k && forall i :: 0 <= i < k ==> s[i] == c
  {
    seq(k, _ => c)
  }

  ghost function Masked(paths: seq<string>, n: nat): (s: seq<string>)
    ensures |s| == |paths|
  {
    seq(|paths|, i requires 0 <= i < |paths| => paths[i] + Run('!', n + 1))
  }

  lemma {:induction false} LongerIsValid(p: string, k: nat)
    requires ValidPath(p)
    ensures ValidPath(p + Run('!', k))
    decreases |p|
  {
    var x := Run('!', k);
    var q, i := p + x, FirstSlash(p);
    if k == 0 {
      assert q == p;
    } else if i < |p| {
      FirstSlashIs(q, i);
      assert q[..i] == p[..i] && q[i + 1..] == p[i + 1..] + x;
      LongerIsValid(p[i + 1..], k);
    } else {
      FirstSlashIs(q, |q|);
      assert p[..i] == p && q[..|q|] == q;
      assert q[|q| - 1] == '!';
    }
  }

  lemma NameIsValid(k: nat)
    requires k > 0
    ensures ValidPath(Run('a', k))
  {
    var q := Run('a', k);
    FirstSlashIs(q, k);
    assert q[..k] == q && q[0] == 'a';
  }

  lemma MaskedMember(paths: seq<string>, n: nat, x: string)
    ensures x in Masked(paths, n) <==> exists p :: p in paths && x == p + Run('!', n + 1)
  {
    if x in Masked(paths, n) {
      var i :| 0 <= i < |paths| && Masked(paths, n)[i] == x;
      assert paths[i] in paths;
    }
    if p :| p in paths && x == p + Run('!', n + 1) {
      var i :| 0 <= i < |paths| && paths[i] == p;
      assert Masked(paths, n)[i] == x;
    }
  }

  lemma MaskedDistinct(paths: seq<string>, n: nat)
    requires Distinct(paths)
    ensures Distinct(Masked(paths, n))
  {
    var s := Masked(paths, n);
    forall i, j | 0 <= i < j < |s| ensures s[i] != s[j] {
      var x := Run('!', n + 1);
      assert s[i] == paths[i] + x && s[j] == paths[j] + x;
      assert s[i][..|s[i]| - |x|] == paths[i] && s[j][..|s[j]| - |x|] == paths[j];
    }
  }

  // ---------------------------------------------------------------- the other map

  /** What the other map is made of: the lengths of all digests and paths of m, and its paths. */
  ghost predicate Bounds(m: DigestMap, l: nat, n: nat, paths: seq<string>) {
    && (forall d :: d in m ==> |d| <= l)
    && (forall p :: HasPath(m, p) ==> |p| <= n)
    && Distinct(paths) && forall p :: p in paths <==> HasPath(m, p)
  }

  lemma {:induction false} LongestOf(s: set<string>) returns (n: nat)
    ensures forall p :: p in s ==> |p| <= n
  {
    n := 0;
    if s != {} {
      var x :| x in s;
      var k := LongestOf(s - {x});
      n := if |x| > k then |x| else k;
    }
  }

  lemma {:induction false} ListOf(s: set<string>) returns (r: seq<string>)
    ensures Distinct(r) && forall p :: p in r <==> p in s
  {
    r := [];
    if s != {} {
      var x :| x in s;
      var rest := ListOf(s - {x});
      r := [x] + rest;
      forall p ensures p in r <==> p in s {
        assert p in r <==> p == x || p in rest;
      }
    }
  }

  lemma BoundsExist(m: DigestMap)
    ensures exists l, n, paths :: Bounds(m, l, n, paths)
  {
    var all := set d, p | d in m && p in m[d] :: p;
    var l := LongestOf(m.Keys);
    var n := LongestOf(all);
    var paths := ListOf(all);
    forall p ensures p in all <==> HasPath(m, p) {}
    assert Bounds(m, l, n, paths);
  }

  ghost function FilledWith(e: string, l: nat, n: nat, paths: seq<string>): seq<string> {
    if |e| == l + 1 then Masked(paths, n) else [Run('a', n + |e|)]
  }

  /** A key that only fills up the map. */
  ghost predicate FillKey(l: nat, e: string) {
    |e| > l && e == Run('0', |e|)
  }

  /**
   o has one entry for all spellings of a digest of m, and is filled up to the same size; the first additional
   entry lists a mask for every path, the others list one name each.
   */
  ghost predicate IsOther(m: DigestMap, o: DigestMap, l: nat, n: nat, paths: seq<string>) {
    && |o| == |m| && Run('0', l + 1) in o
    && (forall d :: d in m ==> Lower(d) in o && o[Lower(d)] == Sort(m[d]))
    && (forall e :: e in o ==> e in LowerKeysOf(m) || (FillKey(l, e) && o[e] == FilledWith(e, l, n, paths)))
  }

  /** k entries that fill up a map. */
  lemma {:induction false} FillMap(l: nat, n: nat, paths: seq<string>, k: nat) returns (fill: DigestMap)
    ensures |fill| == k && (k > 0 ==> Run('0', l + 1) in fill)
    ensures forall e :: e in fill ==> FillKey(l, e) && |e| <= l + k && fill[e] == FilledWith(e, l, n, paths)
  {
    fill := map[];
    if k > 0 {
      var rest := FillMap(l, n, paths, k - 1);
      var e := Run('0', l + k);
      assert FillKey(l, e) && e !in rest;
      fill := rest[e := FilledWith(e, l, n, paths)];
    }
  }

  lemma SumSize(a: DigestMap, b: DigestMap)
    requires a.Keys !! b.Keys
    ensures |a + b| == |a| + |b|
  {
    assert (a + b).Keys == a.Keys + b.Keys;
  }

  lemma OtherExists(m: DigestMap, l: nat, n: nat, paths: seq<string>) returns (o: DigestMap)
    requires Foolable(m) && (forall d :: d in m ==> |d| <= l) && |LowerKeysOf(m)| < |m|
    ensures IsOther(m, o, l, n, paths)
  {
    var base := Collapsed(m);
    var fill := FillMap(l, n, paths, |m| - |base|);
    forall e | e in base ensures e !in fill {
      assert |e| <= l;
    }
    o := base + fill;
    SumSize(base, fill);
    forall d | d in m ensures Lower(d) in o && o[Lower(d)] == Sort(m[d]) {
      CollapsedAt(m, d);
    }
  }

  /** The entry for the spellings of a digest lists their paths. */
  lemma CollapsedEntry(m: DigestMap, o: DigestMap, l: nat, n: nat, paths: seq<string>, d: string)
    requires Foolable(m) && IsOther(m, o, l, n, paths) && d in m
    ensures var e := Lower(d); e in o && o[e] != [] && Distinct(o[e]) && forall p :: p in o[e] <==> p in m[d]
  {
    CollapsedAt(m, d);
  }

  /** The entries that fill up list masks, or one name. */
  lemma FilledEntry(m: DigestMap, o: DigestMap, l: nat, n: nat, paths: seq<string>, e: string)
    requires Distinct(paths) && paths != [] && IsOther(m, o, l, n, paths) && e in o && e !in LowerKeysOf(m)
    ensures FillKey(l, e) && o[e] != [] && Distinct(o[e])
  {
    MaskedDistinct(paths, n);
  }

  /** A path that is a mask, or a name, as e asks for. */
  ghost predicate Filler(m: DigestMap, l: nat, n: nat, e: string, x: string) {
    if |e| == l + 1 then exists p :: HasPath(m, p) && x == p + Run('!', n + 1) else x == Run('a', n + |e|)
  }

  lemma OtherKind(m: DigestMap, o: DigestMap, l: nat, n: nat, paths: seq<string>, e: string, x: string)
    requires Foolable(m) && Bounds(m, l, n, paths) && paths != [] && IsOther(m, o, l, n, paths) && e in o && x in o[e]
    ensures e in LowerKeysOf(m) ==> HasPath(m, x) && forall d :: d in m && Lower(d) == e ==> x in m[d]
    ensures e !in LowerKeysOf(m) ==> FillKey(l, e) && Filler(m, l, n, e, x)
  {
    if e in LowerKeysOf(m) {
      CollapsedKind(m, o, l, n, paths, e, x);
    } else {
      FilledKind(m, l, n, paths, e, x);
    }
  }

  lemma FilledKind(m: DigestMap, l: nat, n: nat, paths: seq<string>, e: string, x: string)
    requires (forall p :: p in paths ==> HasPath(m, p)) && x in FilledWith(e, l, n, paths)
    ensures Filler(m, l, n, e, x)
  {
    MaskedMember(paths, n, x);
  }

  lemma CollapsedKind(m: DigestMap, o: DigestMap, l: nat, n: nat, paths: seq<string>, e: string, x: string)
    requires Foolable(m) && IsOther(m, o, l, n, paths) && e in o && x in o[e] && e in LowerKeysOf(m)
    ensures HasPath(m, x) && forall d :: d in m && Lower(d) == e ==> x in m[d]
  {
    var d :| d in m && Lower(d) == e;
    forall c | c in m && Lower(c) == e ensures x in m[c] {
      CollapsedEntry(m, o, l, n, paths, c);
    }
    assert x in m[d];
  }

  /** Masks and names differ from each other, and from everything that is not longer than n. */
  lemma KindsApart(n: nat, p: string, k: nat)
    requires k > 0
    ensures var x, y := p + Run('!', n + 1), Run('a', n + k); x != y && |x| > n && |y| > n
  {
    var x := p + Run('!', n + 1);
    assert x[|x| - 1] == '!';
  }

  lemma OtherDistinct(m: DigestMap, o: DigestMap, l: nat, n: nat, paths: seq<string>)
    requires Foolable(m) && Bounds(m, l, n, paths) && paths != [] && IsOther(m, o, l, n, paths)
    ensures NoEmpty(o) && DistinctPaths(o)
  {
    forall e | e in o ensures o[e] != [] && Distinct(o[e]) {
      if e in LowerKeysOf(m) {
        var d :| d in m && Lower(d) == e;
        CollapsedEntry(m, o, l, n, paths, d);
      } else {
        FilledEntry(m, o, l, n, paths, e);
      }
    }
    forall e, f, x | e in o && f in o && x in o[e] && x in o[f] ensures e == f {
      OtherKind(m, o, l, n, paths, e, x);
      OtherKind(m, o, l, n, paths, f, x);
      OnePlace(m, l, n, e, f, x);
    }
  }

  lemma OnePlace(m: DigestMap, l: nat, n: nat, e: string, f: string, x: string)
    requires Foolable(m) && forall p :: HasPath(m, p) ==> |p| <= n
    requires e in LowerKeysOf(m) ==> HasPath(m, x) && forall d :: d in m && Lower(d) == e ==> x in m[d]
    requires f in LowerKeysOf(m) ==> HasPath(m, x) && forall d :: d in m && Lower(d) == f ==> x in m[d]
    requires e !in LowerKeysOf(m) ==> FillKey(l, e) && Filler(m, l, n, e, x)
    requires f !in LowerKeysOf(m) ==> FillKey(l, f) && Filler(m, l, n, f, x)
    ensures e == f
  {
    if e in LowerKeysOf(m) && f in LowerKeysOf(m) {
      var d :| d in m && Lower(d) == e;
      var c :| c in m && Lower(c) == f;
      assert x in m[d] && x in m[c];
    } else {
      assert e !in LowerKeysOf(m) ==> |x| > n;
      assert f !in LowerKeysOf(m) ==> |x| > n;
      FilledPlace(m, l, n, e, f, x);
    }
  }

  lemma FilledPlace(m: DigestMap, l: nat, n: nat, e: string, f: string, x: string)
    requires FillKey(l, e) && FillKey(l, f) && Filler(m, l, n, e, x) && Filler(m, l, n, f, x)
    ensures e == f
  {
    if p :| HasPath(m, p) && x == p + Run('!', n + 1) {
      KindsApart(n, p, |e|);
      KindsApart(n, p, |f|);
    } else {
      assert |x| == n + |e| == n + |f|;
    }
  }

  // ---------------------------------------------------------------- it is valid, and equal

  predicate NoSlashFrom(x: string, n: nat) {
    forall i :: n <= i < |x| ==> x[i] != '/'
  }

  lemma MaskIsValid(p: string, n: nat)
    requires ValidPath(p) && |p| <= n
    ensures var x := p + Run('!', n + 1); ValidPath(x) && NoSlashFrom(x, n) && |x| > n
  {
    LongerIsValid(p, n + 1);
  }

  lemma FillerIsValid(m: DigestMap, l: nat, n: nat, e: string, x: string)
    requires Foolable(m) && (forall p :: HasPath(m, p) ==> |p| <= n) && FillKey(l, e) && Filler(m, l, n, e, x)
    ensures ValidPath(x) && |x| > n && NoSlashFrom(x, n)
  {
    if |e| == l + 1 {
      var p :| HasPath(m, p) && x == p + Run('!', n + 1);
      MaskIsValid(p, n);
    } else {
      NameIsValid(n + |e|);
    }
  }

  lemma OtherPaths(m: DigestMap, o: DigestMap, l: nat, n: nat, paths: seq<string>, x: string)
    requires Foolable(m) && Bounds(m, l, n, paths) && paths != [] && IsOther(m, o, l, n, paths) && HasPath(o, x)
    ensures ValidPath(x) && (HasPath(m, x) || (|x| > n && NoSlashFrom(x, n)))
  {
    var e :| e in o && x in o[e];
    OtherKind(m, o, l, n, paths, e, x);
    if e !in LowerKeysOf(m) { FillerIsValid(m, l, n, e, x); }
  }

  lemma MaskThere(m: DigestMap, o: DigestMap, l: nat, n: nat, paths: seq<string>, p: string)
    requires Bounds(m, l, n, paths) && IsOther(m, o, l, n, paths) && HasPath(m, p)
    ensures HasPath(o, p + Run('!', n + 1)) && Masks(p, p + Run('!', n + 1))
  {
    var x, e := p + Run('!', n + 1), Run('0', l + 1);
    MaskedMember(paths, n, x);
    assert e !in LowerKeysOf(m) by { assert |e| > l; }
    assert o[e] == Masked(paths, n);
  }

  lemma OtherAccepted(m: DigestMap, o: DigestMap, l: nat, n: nat, paths: seq<string>)
    requires Foolable(m) && Bounds(m, l, n, paths) && paths != [] && IsOther(m, o, l, n, paths)
    ensures PathsAccepted(o)
  {
    forall x | HasPath(o, x) ensures ValidPath(x) {
      OtherPaths(m, o, l, n, paths, x);
    }
    forall x, y | HasPath(o, x) && HasPath(o, y) && Conflict(x, y) ensures exists r :: HasPath(o, r) && Masks(x, r) {
      OtherPaths(m, o, l, n, paths, x);
      OtherPaths(m, o, l, n, paths, y);
      AboveIsOld(m, n, x, y);
      MaskThere(m, o, l, n, paths, x);
    }
  }

  lemma AboveIsOld(m: DigestMap, n: nat, x: string, y: string)
    requires (forall p :: HasPath(m, p) ==> |p| <= n) && Conflict(x, y)
    requires HasPath(m, x) || |x| > n
    requires HasPath(m, y) || NoSlashFrom(y, n)
    ensures HasPath(m, x)
  {
    assert y[|x|] == '/';
  }

  lemma OtherIsLower(m: DigestMap, o: DigestMap, l: nat, n: nat, paths: seq<string>)
    requires IsOther(m, o, l, n, paths)
    ensures LowerKeys(o) && NoDigestConflict(o)
  {
    forall e | e in o ensures Lower(e) == e {
      if e in LowerKeysOf(m) {
        var d :| d in m && Lower(d) == e;
        LowerIdempotent(d);
      } else {
        assert !HasUpper(e);
        LowerIdempotent(e);
      }
    }
  }

  lemma OtherMatches(m: DigestMap, o: DigestMap, d: string)
    requires NoEmpty(m) && LowerKeys(o) && NoDigestConflict(o) && d in m && Lower(d) in o && o[Lower(d)] == Sort(m[d])
    ensures Matches(m, Norm(o), d)
  {
    var e := Lower(d);
    assert Lower(e) == e;
    SortSorted(m[d]);
    SortSorted(o[e]);
    SortedUnique(Sort(o[e]), Sort(m[d]));
  }

  lemma OtherIsEqual(m: DigestMap, o: DigestMap, l: nat, n: nat, paths: seq<string>)
    requires Foolable(m) && Bounds(m, l, n, paths) && paths != [] && IsOther(m, o, l, n, paths)
    ensures EqVerdict(m, o)
  {
    OtherIsLower(m, o, l, n, paths);
    OtherDistinct(m, o, l, n, paths);
    OtherAccepted(m, o, l, n, paths);
    forall d | d in m ensures Matches(m, Norm(o), d) {
      OtherMatches(m, o, d);
    }
  }

  /**
   For a receiver with two spellings of one digest, the comparison holds for some other map exactly when all
   spellings of a digest list the same paths, different digests different ones, and all paths are valid.
   */
  lemma ConflictingReceiver(m: DigestMap)
    requires !NoDigestConflict(m)
    ensures (exists other :: EqVerdict(m, other)) <==> Foolable(m)
  {
    if other :| EqVerdict(m, other) { EqualIsFoolable(m, other); }
    if Foolable(m) {
      BoundsExist(m);
      var l, n, paths :| Bounds(m, l, n, paths);
      ConflictShrinks(m);
      var d :| d in m;
      assert HasPath(m, m[d][0]);
      var o := OtherExists(m, l, n, paths);
      OtherIsEqual(m, o, l, n, paths);
    }
  }

  /**
   Whenever it holds for a receiver with two spellings of one digest, it is wrong: the other map has a path that the
   receiver does not have.
   */
  lemma ConflictIsWrong(m: DigestMap, other: DigestMap)
    requires !NoDigestConflict(m) && EqVerdict(m, other)
    ensures exists y :: HasPath(other, y) && !HasPath(m, y)
  {
    var n := NormalOther(m, other);
    ConflictShrinks(m);
    var y := ExtraPath(m, n);
  }

  lemma NormalOther(m: DigestMap, other: DigestMap) returns (n: DigestMap)
    requires m != map[] && EqVerdict(m, other)
    ensures DistinctPaths(n) && NoEmpty(n) && |n.Keys| == |m|
    ensures forall d :: d in m ==> Matches(m, n, d)
    ensures forall p :: HasPath(n, p) ==> HasPath(other, p)
  {
    n := Norm(other);
    NormSize(other);
    NormValid(other);
    forall p ensures HasPath(n, p) ==> HasPath(other, p) {
      NormPaths(other, p);
    }
  }

  /** A map that matches all digests of m, and has more than their lower-case forms, has a path that m does not have. */
  lemma ExtraPath(m: DigestMap, n: DigestMap) returns (y: string)
    requires DistinctPaths(n) && NoEmpty(n) && (forall d :: d in m ==> Matches(m, n, d)) && |LowerKeysOf(m)| < |n.Keys|
    ensures HasPath(n, y) && !HasPath(m, y)
  {
    assert LowerKeysOf(m) <= n.Keys;
    assert LowerKeysOf(m) != n.Keys;
    var e :| e in n.Keys && e !in LowerKeysOf(m);
    y := n[e][0];
    forall d | d in m ensures y !in m[d] {
      MatchedPaths(m, n, d);
      assert Lower(d) in LowerKeysOf(m);
    }
  }

  /** All digests of m are spellings of one, with one path. */
  lemma OneDigest(m: DigestMap, p: string)
    requires (forall d :: d in m ==> m[d] == [p]) && (forall d, e :: d in m && e in m ==> Lower(d) == Lower(e))
             && ValidPath(p)
    ensures Foolable(m)
  {
    forall q | HasPath(m, q) ensures q == p {
      var d :| d in m && q in m[d];
    }
  }

  /** A receiver for which it does hold. */
  lemma EqWithConflict()
    ensures var m: DigestMap := map["AB" := ["x"], "ab" := ["x"]];
      !NoDigestConflict(m) && exists other :: EqVerdict(m, other)
  {
    var m: DigestMap := map["AB" := ["x"], "ab" := ["x"]];
    var d, e, p := "AB", "ab", "x";
    FirstSlashIs(p, 1);
    assert p[..1] == p && Lower(d) == e == Lower(e);
    assert d in m && e in m;
    OneDigest(m, p);
    ConflictingReceiver(m);
  }
}
