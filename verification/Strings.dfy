/**
 Path names: when one is before another in the order of their bytes, how a sequence of them is sorted, which of them
 are valid, and when two of them are in conflict because one would be both a file and a directory.
 */
module Strings {
  import opened Values

  // ---------------------------------------------------------------- order

  /** Comparison byte by byte; a proper prefix comes first. */
  predicate Leq(a: string, b: string) {
    a == "" || (b != "" && (a[0] < b[0] || (a[0] == b[0] && Leq(a[1..], b[1..]))))
  }

  predicate Less(a: string, b: string) {
    Leq(a, b) && a != b
  }

  lemma {:induction false} LeqReflexive(a: string)
    ensures Leq(a, a)
  {
    if a != "" { LeqReflexive(a[1..]); }
  }

  lemma {:induction false} LeqTotal(a: string, b: string)
    ensures Leq(a, b) || Leq(b, a)
  {
    if a != "" && b != "" && a[0] == b[0] { LeqTotal(a[1..], b[1..]); }
  }

  lemma {:induction false} LeqAntisymmetric(a: string, b: string)
    requires Leq(a, b) && Leq(b, a)
    ensures a == b
  {
    if a != "" {
      LeqAntisymmetric(a[1..], b[1..]);
      assert a == [a[0]] + a[1..] && b == [b[0]] + b[1..];
    }
  }

  lemma {:induction false} LeqTransitive(a: string, b: string, c: string)
    requires Leq(a, b) && Leq(b, c)
    ensures Leq(a, c)
  {
    if a != "" && a[0] == b[0] == c[0] { LeqTransitive(a[1..], b[1..], c[1..]); }
  }

  /** What lies between a and an extension of a is itself an extension of a. */
  lemma {:induction false} BetweenExtensions(a: string, x: string, b: string)
    requires Leq(a, b) && Leq(b, a + x)
    ensures HasPrefix(b, a)
  {
    if a != "" {
      assert (a + x)[1..] == a[1..] + x;
      BetweenExtensions(a[1..], x, b[1..]);
      assert a == [a[0]] + a[1..] && b == [b[0]] + b[1..];
    }
  }

  lemma {:induction false} LeqAppend(a: string, x: string, y: string)
    ensures Leq(a + x, a + y) <==> Leq(x, y)
  {
    if a == "" {
      assert a + x == x && a + y == y;
    } else {
      assert (a + x)[1..] == a[1..] + x && (a + y)[1..] == a[1..] + y;
      LeqAppend(a[1..], x, y);
    }
  }

  // ---------------------------------------------------------------- sorting

  predicate Sorted(s: seq<string>) {
    forall i, j :: 0 <= i < j < |s| ==> Leq(s[i], s[j])
  }

  predicate Distinct<T(==)>(s: seq<T>) {
    forall i, j :: 0 <= i < j < |s| ==> s[i] != s[j]
  }

  lemma SameElements<T>(a: seq<T>, b: seq<T>)
    requires multiset(a) == multiset(b)
    ensures forall x :: x in a <==> x in b
  {
    forall x ensures x in a <==> x in b {
      assert x in a <==> x in multiset(a);
    }
  }

  lemma {:induction false} DistinctCounts<T>(s: seq<T>)
    ensures Distinct(s) <==> forall x :: multiset(s)[x] <= 1
  {
    if s != [] {
      var init, last := s[..|s| - 1], s[|s| - 1];
      assert s == init + [last];
      assert multiset(s) == multiset(init) + multiset{last};
      DistinctCounts(init);
      assert last in init <==> multiset(init)[last] > 0;
      assert Distinct(s) <==> Distinct(init) && last !in init;
      assert forall x :: multiset(init)[x] <= multiset(s)[x];
    }
  }

  lemma DistinctAppend<T>(s: seq<T>, t: seq<T>)
    ensures Distinct(s + t) <==> Distinct(s) && Distinct(t) && forall p :: p in s ==> p !in t
  {
    var u := s + t;
    if Distinct(u) {
      assert forall i :: 0 <= i < |t| ==> u[|s| + i] == t[i];
      forall i, j | 0 <= i < j < |t| ensures t[i] != t[j] { assert (s + t)[|s| + i] != (s + t)[|s| + j]; }
      forall i, j | 0 <= i < j < |s| ensures s[i] != s[j] { assert (s + t)[i] != (s + t)[j]; }
      forall p | p in s ensures p !in t {
        var i :| 0 <= i < |s| && s[i] == p;
        forall j | 0 <= j < |t| ensures t[j] != p { assert (s + t)[i] != (s + t)[|s| + j]; }
      }
    }
    if Distinct(s) && Distinct(t) && forall p :: p in s ==> p !in t {
      forall i, j | 0 <= i < j < |u| ensures u[i] != u[j] {
        if i < |s| <= j { assert u[i] in s && u[j] in t; }
      }
    }
  }

  lemma HeadIsLeast(s: seq<string>, x: string)
    requires Sorted(s) && x in s
    ensures Leq(s[0], x)
  {
    LeqReflexive(x);
  }

  lemma TailElements<T>(s: seq<T>)
    requires s != []
    ensures multiset(s[1..]) == multiset(s) - multiset{s[0]}
  {
    assert s == [s[0]] + s[1..];
  }

  /** A sorted sequence is determined by its elements: any order of sorting gives the same result. */
  lemma {:induction false} SortedUnique(a: seq<string>, b: seq<string>)
    requires Sorted(a) && Sorted(b) && multiset(a) == multiset(b)
    ensures a == b
  {
    assert |multiset(a)| == |a| && |multiset(b)| == |b|;
    if a != [] {
      assert a[0] in multiset(b);
      assert b[0] in multiset(a);
      HeadIsLeast(a, b[0]);
      HeadIsLeast(b, a[0]);
      LeqAntisymmetric(a[0], b[0]);
      TailElements(a);
      TailElements(b);
      SortedUnique(a[1..], b[1..]);
      assert a == [a[0]] + a[1..] && b == [b[0]] + b[1..];
    }
  }

  /** Inserts x into a sorted sequence. */
  method Insert(x: string, s: seq<string>) returns (r: seq<string>)
    requires Sorted(s)
    ensures Sorted(r) && multiset(r) == multiset(s) + multiset{x}
  {
    var i := 0;
    while i < |s| && !Leq(x, s[i])
      invariant i <= |s| && forall k :: 0 <= k < i ==> Leq(s[k], x)
    {
      LeqTotal(x, s[i]);
      i := i + 1;
    }
    forall k | i < k < |s| ensures Leq(x, s[k]) { LeqTransitive(x, s[i], s[k]); }
    r := s[..i] + [x] + s[i..];
    assert s == s[..i] + s[i..];
  }

  lemma {:induction false} SortedExists(s: seq<string>) returns (r: seq<string>)
    ensures Sorted(r) && multiset(r) == multiset(s)
  {
    if s == [] {
      r := [];
    } else {
      var t := SortedExists(s[1..]);
      r := InsertedExists(s[0], t);
      assert s == [s[0]] + s[1..];
    }
  }

  lemma {:induction false} InsertedExists(x: string, s: seq<string>) returns (r: seq<string>)
    requires Sorted(s)
    ensures Sorted(r) && multiset(r) == multiset(s) + multiset{x}
    decreases |s|
  {
    if s == [] || Leq(x, s[0]) {
      forall i | 0 < i < |s| ensures Leq(x, s[i]) { LeqTransitive(x, s[0], s[i]); }
      r := [x] + s;
    } else {
      LeqTotal(x, s[0]);
      var t := InsertedExists(x, s[1..]);
      r := [s[0]] + t;
      assert s == [s[0]] + s[1..];
      forall i | 0 <= i < |t| ensures Leq(s[0], t[i]) {
        assert t[i] in multiset(t);
        assert t[i] == x || t[i] in s[1..];
      }
    }
  }

  lemma SortExists(s: seq<string>)
    ensures exists r :: Sorted(r) && multiset(r) == multiset(s)
  {
    var r := SortedExists(s);
  }

  /** The sorted arrangement of s. */
  ghost function Sort(s: seq<string>): (r: seq<string>)
    ensures multiset(r) == multiset(s) && |r| == |s|
  {
    SortExists(s);
    var r :| Sorted(r) && multiset(r) == multiset(s);
    assert |multiset(r)| == |r| && |multiset(s)| == |s|;
    r
  }

  lemma SortSorted(s: seq<string>)
    ensures Sorted(Sort(s))
  {
    SortExists(s);
  }

  method SortStrings(s: seq<string>) returns (r: seq<string>)
    ensures r == Sort(s)
  {
    r := [];
    for i := 0 to |s|
      invariant Sorted(r) && multiset(r) == multiset(s[..i])
    {
      r := Insert(s[i], r);
      assert s[..i + 1] == s[..i] + [s[i]];
    }
    assert s[..|s|] == s;
    SortSorted(s);
    SortedUnique(r, Sort(s));
  }

  lemma SortKeepsDistinct(s: seq<string>)
    ensures Distinct(Sort(s)) <==> Distinct(s)
  {
    DistinctCounts(s);
    DistinctCounts(Sort(s));
  }

  // ---------------------------------------------------------------- valid paths

  function FirstSlash(s: string): (k: nat)
    ensures k <= |s| && (k < |s| ==> s[k] == '/') && forall i :: 0 <= i < k ==> s[i] != '/'
  {
    if s == "" || s[0] == '/' then 0 else 1 + FirstSlash(s[1..])
  }

  /** Slash-separated names, none of them empty, "." or "..". */
  predicate ValidPath(s: string) {
    var k := FirstSlash(s);
    ValidName(s[..k]) && (k < |s| ==> ValidPath(s[k + 1..]))
  }

  predicate ValidName(s: string) {
    s != "" && s != "." && s != ".." && '/' !in s
  }

  /** p[i..j] is one of the names between the slashes of p. */
  predicate NameAt(p: string, i: nat, j: nat) {
    && i <= j <= |p| && (i == 0 || p[i - 1] == '/') && (j == |p| || p[j] == '/')
    && '/' !in p[i..j]
  }

  ghost predicate GoodNames(p: string) {
    forall i: nat, j: nat :: NameAt(p, i, j) ==> p[i..j] !in {"", ".", ".."}
  }

  lemma FirstNameAt(p: string, i: nat, j: nat)
    ensures NameAt(p, 0, FirstSlash(p))
    ensures i <= FirstSlash(p) && NameAt(p, i, j) ==> i == 0 && j == FirstSlash(p)
  {
    var k := FirstSlash(p);
    if k < j <= |p| && i <= k { assert p[i..j][k - i] == '/'; }
  }

  lemma LaterNameAt(p: string, n: nat, q: string, i: nat, j: nat)
    requires 0 < n <= |p| && p[n - 1] == '/' && q == p[n..]
    ensures NameAt(p, n + i, n + j) <==> NameAt(q, i, j)
    ensures i <= j <= |q| ==> p[n + i..n + j] == q[i..j]
  {
    if i <= j <= |q| {
      assert p[n + i..n + j] == q[i..j];
      assert i > 0 ==> q[i - 1] == p[n + i - 1];
      assert j < |q| ==> q[j] == p[n + j];
    }
  }

  lemma GoodTail(p: string, n: nat, q: string)
    requires 0 < n <= |p| && p[n - 1] == '/' && q == p[n..] && GoodNames(p)
    ensures GoodNames(q)
  {
    forall i: nat, j: nat | NameAt(q, i, j) ensures q[i..j] !in {"", ".", ".."} {
      LaterNameAt(p, n, q, i, j);
    }
  }

  lemma GoodParts(p: string)
    requires ValidName(p[..FirstSlash(p)])
    requires var k := FirstSlash(p); k < |p| ==> GoodNames(p[k + 1..])
    ensures GoodNames(p)
  {
    forall i: nat, j: nat | NameAt(p, i, j) ensures p[i..j] !in {"", ".", ".."} {
      FirstNameAt(p, i, j);
      if i > FirstSlash(p) { GoodLater(p, FirstSlash(p) + 1, p[FirstSlash(p) + 1..], i, j); }
      assert p[0..FirstSlash(p)] == p[..FirstSlash(p)];
    }
  }

  lemma GoodLater(p: string, n: nat, q: string, i: nat, j: nat)
    requires 0 < n <= i && i <= j <= |p| && p[n - 1] == '/' && q == p[n..] && GoodNames(q) && NameAt(p, i, j)
    ensures p[i..j] !in {"", ".", ".."}
  {
    LaterNameAt(p, n, q, i - n, j - n);
    assert NameAt(q, i - n, j - n);
  }

  /** None of the names between the slashes is empty, "." or "..". */
  lemma {:induction false} ValidPathMeans(p: string)
    ensures ValidPath(p) <==> GoodNames(p)
    decreases |p|
  {
    var k := FirstSlash(p);
    if k < |p| { ValidPathMeans(p[k + 1..]); }
    if ValidPath(p) { GoodParts(p); }
    if GoodNames(p) {
      FirstNameAt(p, 0, k);
      assert p[0..k] == p[..k];
      if k < |p| { GoodTail(p, k + 1, p[k + 1..]); }
    }
  }

  lemma FirstSlashIs(s: string, k: nat)
    requires k <= |s| && (k < |s| ==> s[k] == '/') && forall i :: 0 <= i < k ==> s[i] != '/'
    ensures FirstSlash(s) == k
  {
  }

  lemma NoLeadingSlash(p: string)
    requires ValidPath(p)
    ensures p != "" && p[0] != '/'
  {
    assert p != "" && p[0] == '/' ==> FirstSlash(p) == 0;
  }

  lemma ValidJoin(name: string, rest: string)
    requires ValidName(name) && ValidPath(rest)
    ensures ValidPath(name + "/" + rest)
  {
    var s := name + "/" + rest;
    FirstSlashIs(s, |name|);
    assert s[..|name|] == name && s[|name| + 1..] == rest;
  }

  /** p is a file and q is below p. */
  predicate Conflict(p: string, q: string) {
    HasPrefix(q, p + "/")
  }
}
