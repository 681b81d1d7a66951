/**
 Version numbers: "v1", "v2" ..., or zero-padded to a fixed width. How they are parsed and printed, and when a set of
 them is the sequence of all versions up to the head.
 */
module VNums {
  import opened Values

  const MAX_INT: int := 0x7fff_ffff_ffff_ffff

  datatype VNum = VNum(num: nat, padding: nat)

  // ---------------------------------------------------------------- decimal digits

  predicate IsDigit(c: char) {
    '0' <= c <= '9'
  }

  predicate AllDigits(s: string) {
    forall i :: 0 <= i < |s| ==> IsDigit(s[i])
  }

  function Digit(n: nat): (c: char)
    requires n < 10
    ensures IsDigit(c) && c as int - '0' as int == n
  {
    '0' + n as char
  }

  function Decimal(n: nat): (s: string)
    ensures s != "" && AllDigits(s) && (n > 0 ==> s[0] != '0')
  {
    if n < 10 then [Digit(n)] else Decimal(n / 10) + [Digit(n % 10)]
  }

  function Number(s: string): nat
    requires AllDigits(s)
  {
    if s == "" then 0 else Number(s[..|s| - 1]) * 10 + (s[|s| - 1] as int - '0' as int)
  }

  function Pow10(k: nat): nat {
    if k == 0 then 1 else 10 * Pow10(k - 1)
  }

  function Zeros(k: nat): (s: string)
    ensures |s| == k && forall i :: 0 <= i < k ==> s[i] == '0'
  {
    seq(k, _ => '0')
  }

  lemma {:induction false} NumberOfDecimal(n: nat)
    ensures Number(Decimal(n)) == n
  {
    var s := Decimal(n);
    if n >= 10 {
      NumberOfDecimal(n / 10);
      assert s[..|s| - 1] == Decimal(n / 10);
    } else {
      assert s[..0] == "";
    }
  }

  lemma {:induction false} NumberIgnoresZeros(k: nat, s: string)
    requires AllDigits(s)
    ensures Number(Zeros(k) + s) == Number(s)
  {
    var z := Zeros(k) + s;
    if s != "" {
      assert z[..|z| - 1] == Zeros(k) + s[..|s| - 1];
      NumberIgnoresZeros(k, s[..|s| - 1]);
    } else if k > 0 {
      assert z[..|z| - 1] == Zeros(k - 1) + s;
      NumberIgnoresZeros(k - 1, s);
    }
  }

  lemma {:induction false} DecimalOfNumber(s: string)
    requires AllDigits(s) && s != "" && s[0] != '0'
    ensures Number(s) > 0 && Decimal(Number(s)) == s
  {
    var init := s[..|s| - 1];
    if init == "" {
      assert Number(init) == 0;
    } else {
      DecimalOfNumber(init);
      assert s == init + [s[|s| - 1]];
    }
  }

  lemma {:induction false} DecimalLength(n: nat, k: nat)
    requires k > 0
    ensures n < Pow10(k) <==> |Decimal(n)| <= k
  {
    if n >= 10 {
      if k > 1 { DecimalLength(n / 10, k - 1); }
    } else {
      assert Pow10(k) >= 10 by { Pow10AtLeast(k); }
    }
  }

  lemma {:induction false} Pow10AtLeast(k: nat)
    requires k > 0
    ensures Pow10(k) >= 10
  {
    if k > 1 { Pow10AtLeast(k - 1); }
  }

  // ---------------------------------------------------------------- version numbers

  predicate PaddingOverflow(v: VNum) {
    v.padding > 0 && v.num >= Pow10(v.padding - 1)
  }

  predicate Valid(v: VNum) {
    v.num > 0 && !PaddingOverflow(v)
  }

  function Next(v: VNum): Result<VNum> {
    var next := VNum(v.num + 1, v.padding);
    if PaddingOverflow(next) then Err("padding overflow") else Ok(next)
  }

  function String(v: VNum): string {
    var d := Decimal(v.num);
    "v" + (if |d| < v.padding then Zeros(v.padding - |d|) else "") + d
  }

  method Parse(v: string) returns (r: Result<VNum>)
    ensures r.Ok? <==> |v| >= 2 && v[0] == 'v' && AllDigits(v[1..]) && 0 < Number(v[1..]) <= MAX_INT
    ensures r.Ok? ==> Valid(r.value) && String(r.value) == v
  {
    if |v| < 2 || v[0] != 'v' { return Err("invalid version"); }
    var p := if v[1] == '0' then |v| - 1 else 0;
    var first := |v|;  // where the first digit other than '0' is
    for i := 1 to |v|
      invariant 1 <= first <= |v|
      invariant forall k :: 1 <= k < i ==> IsDigit(v[k])
      invariant forall k :: 1 <= k < i && k < first ==> v[k] == '0'
      invariant first < |v| ==> first < i && v[first] != '0'
    {
      if !IsDigit(v[i]) {
        assert v[1..][i - 1] == v[i];
        return Err("invalid version");
      }
      if v[i] != '0' && first == |v| { first := i; }
    }
    if first == |v| {
      assert v[1..] == Zeros(|v| - 1) + "";
      NumberIgnoresZeros(|v| - 1, "");
      return Err("invalid version");
    }
    PrintOfParsed(v, first);
    var n := Number(v[1..]);
    if n > MAX_INT { return Err("invalid version"); }
    r := Ok(VNum(n, p));
  }

  lemma PrintPadded(z: nat, d: string)
    requires AllDigits(d) && d != "" && d[0] != '0'
    ensures Number(d) > 0
    ensures var w := VNum(Number(d), if z > 0 then z + |d| else 0); Valid(w) && String(w) == "v" + Zeros(z) + d
  {
    DecimalOfNumber(d);
    if z > 0 { DecimalLength(Number(d), z + |d| - 1); }
  }

  /** Zeros, then a number without leading zeros: the printed form of what it parses to. */
  lemma PrintOfParsed(v: string, first: nat)
    requires 1 <= first < |v| && v[0] == 'v' && AllDigits(v[1..]) && v[first] != '0'
    requires forall k :: 1 <= k < first ==> v[k] == '0'
    ensures Number(v[1..]) > 0
    ensures var w := VNum(Number(v[1..]), if v[1] == '0' then |v| - 1 else 0); Valid(w) && String(w) == v
  {
    var d, z := v[first..], Zeros(first - 1);
    assert AllDigits(d) by { assert forall i :: 0 <= i < |d| ==> d[i] == v[1..][first - 1 + i]; }
    assert v[1..] == z + d;
    assert v == "v" + z + d;
    NumberIgnoresZeros(first - 1, d);
    PrintPadded(first - 1, d);
  }

  /** Parsing is the inverse of printing, on valid numbers. */
  lemma ParseOfString(v: VNum)
    requires Valid(v)
    ensures var s := String(v);
      |s| >= 2 && s[0] == 'v' && AllDigits(s[1..]) && Number(s[1..]) == v.num
      && v.padding == if s[1] == '0' then |s| - 1 else 0
  {
    var s, d := String(v), Decimal(v.num);
    NumberOfDecimal(v.num);
    if v.padding > 0 {
      assert v.padding > 1;
      DecimalLength(v.num, v.padding - 1);
      var z := Zeros(v.padding - |d|);
      assert s[1..] == z + d;
      NumberIgnoresZeros(v.padding - |d|, d);
    } else {
      assert s[1..] == d;
    }
  }

  /** Printed numbers, and the last number of a padded sequence. */
  lemma PrintedForms()
    ensures String(VNum(1, 0)) == "v1" && String(VNum(12, 0)) == "v12" && String(VNum(12, 4)) == "v0012"
    ensures Next(VNum(8, 2)) == Ok(VNum(9, 2)) && Next(VNum(9, 2)).Err? && Next(VNum(9, 0)) == Ok(VNum(10, 0))
  {
    assert Decimal(1) == "1" && Decimal(12) == Decimal(1) + [Digit(2)] == "12";
    assert Zeros(2) == "00";
    assert "v" + "" + "1" == "v1" && "v" + "" + "12" == "v12" && "v" + "00" + "12" == "v0012";
    assert Pow10(1) == 10;
  }

  lemma StringInjective(v: VNum, w: VNum)
    requires Valid(v) && Valid(w) && String(v) == String(w)
    ensures v == w
  {
    ParseOfString(v);
    ParseOfString(w);
  }

  // ---------------------------------------------------------------- sequences of versions

  /** The versions 1, 2, ... up to head. */
  function Lineage(head: VNum): seq<VNum> {
    seq(head.num, i requires 0 <= i < head.num => VNum(i + 1, head.padding))
  }

  predicate SortedByNum(s: seq<VNum>) {
    forall i, j :: 0 <= i < j < |s| ==> s[i].num <= s[j].num
  }

  method InsertByNum(x: VNum, s: seq<VNum>) returns (r: seq<VNum>)
    requires SortedByNum(s)
    ensures SortedByNum(r) && multiset(r) == multiset(s) + multiset{x}
  {
    var i := 0;
    while i < |s| && s[i].num < x.num
      invariant i <= |s| && forall k :: 0 <= k < i ==> s[k].num < x.num
    {
      i := i + 1;
    }
    r := s[..i] + [x] + s[i..];
    assert s == s[..i] + s[i..];
  }

  method SortByNum(a: array<VNum>)
    modifies a
    ensures SortedByNum(a[..]) && multiset(a[..]) == multiset(old(a[..]))
  {
    var r: seq<VNum> := [];
    for i := 0 to a.Length
      invariant a[..] == old(a[..]) && SortedByNum(r) && multiset(r) == multiset(a[..i])
    {
      r := InsertByNum(a[i], r);
      assert a[..i + 1] == a[..i] + [a[i]];
    }
    assert a[..a.Length] == a[..];
    assert |multiset(r)| == |r| && |multiset(a[..])| == a.Length;
    forall i | 0 <= i < a.Length { a[i] := r[i]; }
    assert a[..] == r;
  }

  lemma LastIsHead(s: seq<VNum>, head: VNum)
    requires head.num > 0 && SortedByNum(s) && multiset(s) == multiset(Lineage(head))
    ensures |s| == head.num && s[head.num - 1] == head
  {
    var l, n := Lineage(head), head.num;
    assert |multiset(s)| == |s| && |multiset(l)| == |l|;
    assert s[n - 1] in multiset(l) && l[n - 1] in multiset(s);
    var k :| 0 <= k < n && s[k] == l[n - 1];
  }

  /** Sorted by number, a rearrangement of a lineage is the lineage. */
  lemma {:induction false} SortedLineage(s: seq<VNum>, head: VNum)
    requires SortedByNum(s) && multiset(s) == multiset(Lineage(head))
    ensures s == Lineage(head)
    decreases head.num
  {
    if head.num == 0 {
      assert |multiset(s)| == |s|;
    } else {
      StepDown(s, head);
      var init :| s == init + [head] && SortedByNum(init)
        && multiset(init) == multiset(Lineage(VNum(head.num - 1, head.padding)));
      SortedLineage(init, VNum(head.num - 1, head.padding));
      LineageInit(head);
    }
  }

  lemma SameWithout(s: seq<VNum>, t: seq<VNum>, x: VNum)
    requires multiset(s + [x]) == multiset(t + [x])
    ensures multiset(s) == multiset(t)
  {
    assert multiset(s) == multiset(s + [x]) - multiset{x};
    assert multiset(t) == multiset(t + [x]) - multiset{x};
  }

  lemma StepDown(s: seq<VNum>, head: VNum)
    requires head.num > 0 && SortedByNum(s) && multiset(s) == multiset(Lineage(head))
    ensures exists init :: s == init + [head] && SortedByNum(init)
                           && multiset(init) == multiset(Lineage(VNum(head.num - 1, head.padding)))
  {
    LastIsHead(s, head);
    LineageInit(head);
    var init := s[..|s| - 1];
    assert s == init + [head];
    SameWithout(init, Lineage(VNum(head.num - 1, head.padding)), head);
    forall i, j | 0 <= i < j < |init| ensures init[i].num <= init[j].num { assert init[i] == s[i] && init[j] == s[j]; }
  }

  lemma LineageInit(head: VNum)
    requires head.num > 0
    ensures var l, before := Lineage(head), Lineage(VNum(head.num - 1, head.padding));
      l[..|l| - 1] == before && l == before + [head]
  {
  }

  /** Valid version numbers are exactly the rearrangements of 1, 2, ..., head, with one padding that is wide enough. */
  method ValidSequence(vs: array<VNum>) returns (r: Option<VNum>)
    modifies vs
    ensures r.Some? <==> exists h :: Valid(h) && multiset(old(vs[..])) == multiset(Lineage(h))
    ensures r.Some? ==>
              Valid(r.value) && multiset(old(vs[..])) == multiset(Lineage(r.value)) && vs[..] == Lineage(r.value)
  {
    ghost var was := vs[..];
    if vs.Length == 0 {
      assert forall h :: Valid(h) ==> |multiset(Lineage(h))| == h.num > 0;
      return None;
    }
    SortByNum(vs);
    ghost var s := vs[..];
    forall h | multiset(was) == multiset(Lineage(h)) ensures s == Lineage(h) { SortedLineage(s, h); }
    var padding := vs[0].padding;
    for i := 0 to vs.Length
      invariant vs[..] == s && forall k :: 0 <= k < i ==> s[k] == VNum(k + 1, padding)
    {
      if vs[i].num != i + 1 || vs[i].padding != padding {
        forall h ensures s != Lineage(h) {
        }
        return None;
      }
    }
    var head := vs[vs.Length - 1];
    assert s == Lineage(head);
    forall h | s == Lineage(h) ensures h == head { assert |Lineage(h)| == h.num; assert Lineage(h)[h.num - 1] == h; }
    if !Valid(head) { return None; }
    return Some(head);
  }
}
