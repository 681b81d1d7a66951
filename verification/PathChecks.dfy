/**
 The path check that compares sorted neighbours, exactly which conflicts it finds, and those that it does not find
 because another path is sorted in between.
 */
module PathChecks {
  import opened Values
  import opened Strings

  datatype PathError = NoError | InvalidPath(path: string) | ConflictAt(path: string)

  predicate NeighboursOk(s: seq<string>) {
    forall i: nat :: i + 1 < |s| ==> NeighbourOk(s, i)
  }

  /** The paths pass the check. */
  ghost predicate Accepts(s: seq<string>) {
    (forall p :: p in s ==> ValidPath(p)) && NeighboursOk(Sort(s))
  }

  /** r sorts between p and everything below p. */
  predicate Masks(p: string, r: string) {
    |r| > |p| && HasPrefix(r, p) && r[|p|] < '/'
  }

  predicate ConflictFree(s: seq<string>) {
    forall p, q :: p in s && q in s ==> !Conflict(p, q)
  }

  predicate NeighbourOk(s: seq<string>, i: nat)
    requires i + 1 < |s|
  {
    s[i] != s[i + 1] && !Conflict(s[i], s[i + 1])
  }

  /** p occurs twice, or is above another path. */
  ghost predicate InConflict(s: seq<string>, p: string) {
    multiset(s)[p] > 1 || (p in s && exists q :: q in s && Conflict(p, q))
  }

  method SortInPlace(a: array<string>)
    modifies a
    ensures a[..] == Sort(old(a[..]))
  {
    ghost var was := a[..];
    SortSorted(was);
    if !Sorted(a[..]) {
      var s := SortStrings(a[..]);
      forall i | 0 <= i < a.Length { a[i] := s[i]; }
      assert a[..] == s;
    } else {
      SortedUnique(was, Sort(was));
    }
  }

  method ValidPaths(a: array<string>) returns (e: PathError)
    modifies a
    ensures e.NoError? <==> Accepts(old(a[..]))
    ensures e.InvalidPath? ==> e.path in old(a[..]) && !ValidPath(e.path)
    ensures e.ConflictAt? ==> InConflict(old(a[..]), e.path)
    ensures a[..] == if e.InvalidPath? then old(a[..]) else Sort(old(a[..]))
  {
    ghost var was := a[..];
    for i := 0 to a.Length
      invariant a[..] == was
      invariant forall k :: 0 <= k < i ==> ValidPath(was[k])
    {
      if !ValidPath(a[i]) {
        assert was[i] in was;
        return InvalidPath(a[i]);
      }
    }
    SortInPlace(a);
    ghost var t := a[..];
    var n := a.Length;
    if n <= 1 { return NoError; }
    for i := 0 to n - 1
      invariant a[..] == t == Sort(was)
      invariant forall k: nat :: k < i ==> NeighbourOk(t, k)
    {
      if a[i] == a[i + 1] || HasPrefix(a[i + 1], a[i] + "/") {
        assert !NeighbourOk(t, i);
        BadNeighbour(was, t, i);
        return ConflictAt(a[i]);
      }
    }
    return NoError;
  }

  lemma BadNeighbour(s: seq<string>, t: seq<string>, i: nat)
    requires multiset(s) == multiset(t) && i + 1 < |t| && !NeighbourOk(t, i)
    ensures InConflict(s, t[i])
  {
    SameElements(s, t);
    assert t[i] in s && t[i + 1] in s;
    if t[i] == t[i + 1] {
      assert t == t[..i] + [t[i]] + [t[i + 1]] + t[i + 2..];
    }
  }

  /** In a sorted sequence with distinct neighbours all elements are distinct. */
  lemma NeighboursDistinct(s: seq<string>)
    requires Sorted(s) && NeighboursOk(s)
    ensures Distinct(s)
  {
    forall i, j | 0 <= i < j < |s| ensures s[i] != s[j] {
      if s[i] == s[j] {
        assert NeighbourOk(s, i);
        assert Leq(s[i], s[i + 1]);
        LeqReflexive(s[j]);
        assert Leq(s[i + 1], s[j]);
        LeqAntisymmetric(s[i], s[i + 1]);
      }
    }
  }

  /** Between p and a path below p, every path masks p or is below p. */
  lemma Between(p: string, r: string, q: string)
    requires Leq(p, r) && Leq(r, q) && p != r && Conflict(p, q)
    ensures HasPrefix(r, p) && |r| > |p| && (Masks(p, r) || Conflict(p, r))
  {
    var x := q[|p|..];
    assert q == p + x;
    BetweenExtensions(p, x, r);
    var y := r[|p|..];
    assert r == p + y;
    LeqAppend(p, y, x);
    assert x[0] == '/' && y != "";
    assert y[0] < '/' || HasPrefix(r, p + "/");
  }

  lemma MasksSortsBefore(p: string, r: string, q: string)
    requires Masks(p, r) && Conflict(p, q)
    ensures Leq(p, r) && Leq(r, q) && r != q && p != r
  {
    assert r == p + r[|p|..] && q == p + q[|p|..] && p == p + "";
    LeqAppend(p, "", r[|p|..]);
    LeqAppend(p, r[|p|..], q[|p|..]);
  }

  lemma FoundInSorted(s: seq<string>, p: string, q: string)
    requires p in s && q in s && Conflict(p, q)
    ensures exists i: nat, j: nat :: i < j < |s| && Sort(s)[i] == p && Sort(s)[j] == q
  {
    var t := Sort(s);
    SameElements(s, t);
    SortSorted(s);
    var i :| 0 <= i < |t| && t[i] == p;
    var j :| 0 <= j < |t| && t[j] == q;
    assert q == p + q[|p|..] && p == p + "";
    LeqAppend(p, "", q[|p|..]);
    if j < i { LeqAntisymmetric(p, q); }
    assert i < j < |s| && Sort(s)[i] == p && Sort(s)[j] == q;
  }

  lemma AcceptedConflictIsMasked(s: seq<string>, p: string, q: string)
    requires Accepts(s) && p in s && q in s && Conflict(p, q)
    ensures exists r :: r in s && Masks(p, r)
  {
    var t := Sort(s);
    FoundInSorted(s, p, q);
    var i: nat, j: nat :| i < j < |s| && t[i] == p && t[j] == q;
    SortSorted(s);
    SameElements(s, t);
    var r := t[i + 1];
    assert NeighbourOk(t, i);
    LeqReflexive(q);
    Between(p, r, q);
    assert r in s;
  }

  /** Stepping from a path that masks p towards p, the neighbour of p masks it too. */
  lemma NeighbourMasks(t: seq<string>, i: nat, p: string, r: string)
    requires Sorted(t) && Distinct(t) && i + 1 < |t| && t[i] == p && r in t && Masks(p, r)
    ensures !Conflict(p, t[i + 1])
  {
    var k :| 0 <= k < |t| && t[k] == r;
    if Conflict(p, t[i + 1]) {
      MasksSortsBefore(p, r, t[i + 1]);
      if k <= i { LeqAntisymmetric(p, r); } else { LeqAntisymmetric(t[i + 1], r); }
    }
  }

  /**
   Valid, distinct paths in which every path that conflicts with one below it is masked by a third
   path, that continues it with a byte below '/'.
   */
  ghost predicate Consistent(s: seq<string>) {
    && (forall p :: p in s ==> ValidPath(p))
    && Distinct(s)
    && (forall p, q :: p in s && q in s && Conflict(p, q) ==> exists r :: r in s && Masks(p, r))
  }

  /** Exactly what the check accepts. */
  lemma AcceptsExactly(s: seq<string>)
    ensures Accepts(s) <==> Consistent(s)
  {
    var t := Sort(s);
    SortSorted(s);
    SameElements(s, t);
    SortKeepsDistinct(s);
    if Accepts(s) {
      NeighboursDistinct(t);
      forall p, q | p in s && q in s && Conflict(p, q) ensures exists r :: r in s && Masks(p, r) {
        AcceptedConflictIsMasked(s, p, q);
      }
    }
    if Distinct(s) && forall p, q :: p in s && q in s && Conflict(p, q) ==> exists r :: r in s && Masks(p, r) {
      forall i: nat | i + 1 < |t| ensures NeighbourOk(t, i) {
        if Conflict(t[i], t[i + 1]) {
          assert t[i] in s && t[i + 1] in s;
          var r :| r in s && Masks(t[i], r);
          NeighbourMasks(t, i, t[i], r);
        }
      }
    }
  }

  /** Without bytes below '/', the check finds every conflict. */
  lemma AcceptsFindsConflicts(s: seq<string>)
    requires forall p, i :: p in s && 0 <= i < |p| ==> p[i] >= '/'
    ensures Accepts(s) <==> (forall p :: p in s ==> ValidPath(p)) && Distinct(s) && ConflictFree(s)
  {
    AcceptsExactly(s);
  }

  /** m masks the conflict of a with b. */
  predicate Masking(a: string, m: string, b: string) {
    && ValidPath(a) && ValidPath(m) && ValidPath(b) && a != m && a != b && m != b
    && Conflict(a, b) && Masks(a, m) && !HasPrefix(b, m) && !HasPrefix(m, b)
  }

  /** The check misses the conflict of "a" with "a/b" here. */
  lemma MissedConflict()
    ensures Masking("a", "a.txt", "a/b")
    ensures var s := ["a", "a.txt", "a/b"]; Accepts(s) && !ConflictFree(s)
  {
    var a, m, b := "a", "a.txt", "a/b";
    FirstSlashIs(a, 1);
    FirstSlashIs(m, 5);
    FirstSlashIs(b, 1);
    FirstSlashIs("b", 1);
    assert a[..1] == a && m[..5] == m && b[..1] == a && b[2..] == "b" && "b"[..1] == "b";
    AcceptsMasked(a, m, b);
  }

  lemma AcceptsMasked(a: string, m: string, b: string)
    requires Masking(a, m, b)
    ensures Accepts([a, m, b]) && !ConflictFree([a, m, b])
  {
    MaskedIsConsistent(a, m, b);
    AcceptsIf([a, m, b]);
    assert a in [a, m, b] && b in [a, m, b];
  }

  lemma AcceptsIf(s: seq<string>)
    requires Consistent(s)
    ensures Accepts(s)
  {
    AcceptsExactly(s);
  }

  lemma MaskedIsConsistent(a: string, m: string, b: string)
    requires Masking(a, m, b)
    ensures Consistent([a, m, b])
  {
    var s := [a, m, b];
    assert m in s;
    forall p, q | p in s && q in s && Conflict(p, q) ensures exists r :: r in s && Masks(p, r) {
      assert HasPrefix(q, p) && |q| > |p|;
      assert p == a;
    }
  }
}
