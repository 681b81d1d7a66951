/**
 The directory tree of an object version, rebuilt from a flat map of logical names: opening files and directories,
 listing them, also in pages, and walking the tree.
 */
module LogicalFS {
  import opened Values
  import opened Strings

  /** Logical names to names in the underlying storage. */
  type Refs = map<string, string>

  datatype Entry = Entry(name: string, isDir: bool)

  datatype Node = File(target: string) | Dir(entries: seq<Entry>)

  function Prefix(dir: string): string {
    if dir == "." then "" else dir + "/"
  }

  function Join(dir: string, name: string): string {
    Prefix(dir) + name
  }

  /** p is below dir, and e is the entry of dir on the way to p. */
  predicate Leads(dir: string, e: Entry, p: string) {
    && HasPrefix(p, Prefix(dir))
    && var rest := p[|Prefix(dir)|..];
       var k := FirstSlash(rest);
       e == Entry(rest[..k], k < |rest|)
  }

  function EntryFor(dir: string, p: string): Entry
    requires HasPrefix(p, Prefix(dir))
  {
    var rest := p[|Prefix(dir)|..];
    var k := FirstSlash(rest);
    Entry(rest[..k], k < |rest|)
  }

  predicate SortedByName(es: seq<Entry>) {
    forall i, j :: 0 <= i < j < |es| ==> Less(es[i].name, es[j].name)
  }

  /** Names are valid, have targets, and are not both a file and a directory. */
  ghost predicate GoodRefs(refs: Refs) {
    && (forall p :: p in refs ==> ValidPath(p) && refs[p] != "")
    && (forall p, q :: p in refs && q in refs ==> !Conflict(p, q))
  }

  /** es is the sorted listing of dir: one entry for each name on the way to a file below dir. */
  ghost predicate IsListing(refs: Refs, dir: string, es: seq<Entry>) {
    && SortedByName(es)
    && (forall e :: e in es ==> exists p :: p in refs && Leads(dir, e, p))
    && (forall p {:trigger EntryFor(dir, p)} :: p in refs && HasPrefix(p, Prefix(dir)) ==>
          exists e :: e in es && e.name == EntryFor(dir, p).name)
  }

  method OpenDir(refs: Refs, dir: string) returns (r: Result<seq<Entry>>)
    ensures r.Err? <==> dir != "." && forall p :: p in refs ==> !HasPrefix(p, Prefix(dir))
    ensures r.Ok? ==> IsListing(refs, dir, r.value)
  {
    var children: map<string, Entry> := map[];
    var todo := refs.Keys;
    while todo != {}
      invariant todo <= refs.Keys
      invariant forall n :: n in children ==>
                  children[n].name == n && exists p :: p in refs && Leads(dir, children[n], p)
      invariant forall p :: p in refs && p !in todo && HasPrefix(p, Prefix(dir)) ==> EntryFor(dir, p).name in children
      decreases |todo|
    {
      var p :| p in todo;
      todo := todo - {p};
      if HasPrefix(p, Prefix(dir)) {
        var e := EntryFor(dir, p);
        if e.name !in children {
          assert Leads(dir, e, p);
          children := children[e.name := e];
        }
      }
    }
    assert forall p :: p in refs && HasPrefix(p, Prefix(dir)) ==> EntryFor(dir, p).name in children;
    if dir != "." && children == map[] { return Err("not found"); }
    if dir != "." {
      var n :| n in children;
      var p :| p in refs && Leads(dir, children[n], p);
    }
    var es := SortEntries(children);
    return Ok(es);
  }

  /** The values of a map of entries by name, in the order of their names. */
  method SortEntries(children: map<string, Entry>) returns (es: seq<Entry>)
    requires forall n :: n in children ==> children[n].name == n
    ensures SortedByName(es)
    ensures forall e :: e in es <==> e.name in children && children[e.name] == e
  {
    var names, todo := [], children.Keys;
    while todo != {}
      invariant todo <= children.Keys && Distinct(names)
      invariant forall n :: n in names <==> n in children.Keys - todo
      decreases |todo|
    {
      var n :| n in todo;
      assert n !in names;
      todo, names := todo - {n}, names + [n];
    }
    var sorted := SortStrings(names);
    SortSorted(names);
    SortKeepsDistinct(names);
    SameElements(names, sorted);
    assert forall i :: 0 <= i < |sorted| ==> sorted[i] in sorted;
    es := seq(|sorted|, i requires 0 <= i < |sorted| =>
      if sorted[i] in children then children[sorted[i]] else Entry("", false));
    forall e ensures e in es <==> e.name in children && children[e.name] == e {
      if e.name in children && children[e.name] == e {
        assert e.name in names && e.name in sorted;
        var i :| 0 <= i < |sorted| && sorted[i] == e.name;
        assert es[i] == e;
      }
    }
  }

  method Open(refs: Refs, name: string) returns (r: Result<Node>)
    ensures name != "." && !ValidPath(name) ==> r.Err?
    ensures name != "." && ValidPath(name) && name in refs && refs[name] != "" ==> r == Ok(File(refs[name]))
    ensures name == "." || (ValidPath(name) && (name !in refs || refs[name] == "")) ==>
      (r.Err? <==> name != "." && forall p :: p in refs ==> !HasPrefix(p, Prefix(name)))
      && (r.Ok? ==> r.value.Dir? && IsListing(refs, name, r.value.entries))
  {
    if name != "." && !ValidPath(name) { return Err("invalid"); }
    if name != "." && name in refs && refs[name] != "" { return Ok(File(refs[name])); }
    var d := OpenDir(refs, name);
    if d.Err? { return Err(d.error); }
    return Ok(Dir(d.value));
  }

  // ---------------------------------------------------------------- kinds of entries

  lemma LeadsParts(dir: string, e: Entry, p: string)
    requires Leads(dir, e, p)
    ensures '/' !in e.name
    ensures e.isDir ==> HasPrefix(p, Join(dir, e.name) + "/")
    ensures !e.isDir ==> p == Join(dir, e.name)
  {
    var prefix := Prefix(dir);
    CutParts(prefix, p[|prefix|..], p);
  }

  /** What is left of p after the prefix, cut at its first slash. */
  lemma CutParts(prefix: string, rest: string, p: string)
    requires HasPrefix(p, prefix) && rest == p[|prefix|..]
    ensures var k := FirstSlash(rest);
      && '/' !in rest[..k]
      && (k < |rest| ==> HasPrefix(p, prefix + rest[..k] + "/"))
      && (k == |rest| ==> p == prefix + rest[..k])
  {
    var k := FirstSlash(rest);
    assert p == prefix + rest && rest == rest[..k] + rest[k..];
    if k < |rest| {
      assert rest[k..][0] == '/';
      assert (prefix + rest[..k] + "/") == p[..|prefix| + k + 1];
    }
  }

  /** Whether an entry is a file or a directory does not depend on the order in which the names are visited. */
  lemma KindIsDetermined(refs: Refs, dir: string, d: Entry, e: Entry, p: string, q: string)
    requires GoodRefs(refs) && p in refs && q in refs && Leads(dir, d, p) && Leads(dir, e, q) && d.name == e.name
    ensures d == e
  {
    LeadsParts(dir, d, p);
    LeadsParts(dir, e, q);
    assert !Conflict(p, q) && !Conflict(q, p);
  }

  lemma {:induction false} SortedNamesUnique(es: seq<Entry>, fs: seq<Entry>)
    requires SortedByName(es) && SortedByName(fs) && forall e :: e in es <==> e in fs
    ensures es == fs
  {
    assert fs != [] ==> fs[0] in es;
    if es != [] {
      assert es[0] in fs && (fs != [] ==> fs[0] in es);
      var i :| 0 <= i < |fs| && fs[i] == es[0];
      var j :| 0 <= j < |es| && es[j] == fs[0];
      if i > 0 && j > 0 { LeqAntisymmetric(es[0].name, fs[0].name); }
      assert es[0] == fs[0];
      forall e ensures e in es[1..] <==> e in fs[1..] {
        TailMember(es, e);
        TailMember(fs, e);
      }
      SortedNamesUnique(es[1..], fs[1..]);
      assert es == [es[0]] + es[1..] && fs == [fs[0]] + fs[1..];
    }
  }

  lemma TailMember(es: seq<Entry>, e: Entry)
    requires SortedByName(es) && es != []
    ensures e in es[1..] <==> e in es && e != es[0]
  {
    if e in es[1..] {
      var i :| 0 <= i < |es[1..]| && es[1..][i] == e;
      assert Less(es[0].name, es[i + 1].name);
    }
  }

  /** A directory has one listing. */
  lemma ListingUnique(refs: Refs, dir: string, es: seq<Entry>, fs: seq<Entry>)
    requires GoodRefs(refs) && IsListing(refs, dir, es) && IsListing(refs, dir, fs)
    ensures es == fs
  {
    forall e ensures e in es <==> e in fs {
      if e in es { ListedIn(refs, dir, es, fs, e); }
      if e in fs { ListedIn(refs, dir, fs, es, e); }
    }
    SortedNamesUnique(es, fs);
  }

  /** In a listing, the entry on the way to p is the one that p itself gives. */
  lemma EntryListed(refs: Refs, dir: string, es: seq<Entry>, p: string)
    requires GoodRefs(refs) && IsListing(refs, dir, es) && p in refs && HasPrefix(p, Prefix(dir))
    ensures EntryFor(dir, p) in es && Leads(dir, EntryFor(dir, p), p)
  {
    var own := EntryFor(dir, p);
    var e :| e in es && e.name == own.name;
    var q :| q in refs && Leads(dir, e, q);
    KindIsDetermined(refs, dir, own, e, p, q);
  }

  lemma ListedIn(refs: Refs, dir: string, es: seq<Entry>, fs: seq<Entry>, e: Entry)
    requires GoodRefs(refs) && IsListing(refs, dir, es) && IsListing(refs, dir, fs) && e in es
    ensures e in fs
  {
    var p :| p in refs && Leads(dir, e, p);
    EntryListed(refs, dir, fs, p);
  }

  // ---------------------------------------------------------------- walking

  /** Every directory name that is opened is valid. */
  ghost predicate GoodDir(refs: Refs, dir: string) {
    dir == "." || (ValidPath(dir) && exists p :: p in refs && HasPrefix(p, dir + "/"))
  }

  lemma {:induction false} PrefixValid(s: string, p: string)
    requires s != "" && ValidPath(p) && HasPrefix(p, s + "/")
    ensures ValidPath(s)
    decreases |s|
  {
    var k := FirstSlash(p);
    assert p[..|s| + 1] == s + "/";
    assert p[|s|] == '/' && forall i :: 0 <= i < |s| ==> p[i] == s[i];
    assert k <= |s|;
    if k == |s| {
      FirstSlashIs(s, |s|);
      assert s[..|s|] == p[..k];
    } else {
      FirstSlashIs(s, k);
      assert s[..k] == p[..k];
      var t, q := s[k + 1..], p[k + 1..];
      assert q[..|t| + 1] == t + "/";
      NoLeadingSlash(q);
      PrefixValid(t, q);
    }
  }

  lemma ChildIsGood(refs: Refs, dir: string, e: Entry, p: string)
    requires GoodRefs(refs) && p in refs && Leads(dir, e, p)
    ensures e.isDir ==> GoodDir(refs, Join(dir, e.name)) && Join(dir, e.name) !in refs && Join(dir, e.name) != "."
    ensures !e.isDir ==> Join(dir, e.name) == p
  {
    LeadsParts(dir, e, p);
    if e.isDir {
      var child := Join(dir, e.name);
      NoLeadingSlash(p);
      PrefixValid(child, p);
      assert child in refs ==> Conflict(child, p);
    }
  }

  /** files has exactly the names below dir, each once. */
  ghost predicate Walked(refs: Refs, dir: string, files: seq<string>) {
    Distinct(files) && forall p :: p in files <==> p in refs && HasPrefix(p, Prefix(dir))
  }

  /** The names below the first n entries of dir. */
  ghost predicate WalkedFirst(refs: Refs, dir: string, es: seq<Entry>, n: nat, files: seq<string>)
    requires n <= |es|
  {
    Distinct(files) && forall p :: p in files <==> p in refs && exists i :: 0 <= i < n && Leads(dir, es[i], p)
  }

  /** Visits everything below dir, and collects the files; longest is at least the length of every name. */
  method Walk(refs: Refs, dir: string, ghost longest: nat) returns (files: seq<string>)
    requires GoodRefs(refs) && GoodDir(refs, dir) && dir !in refs
    requires forall p :: p in refs ==> |p| <= longest
    ensures Walked(refs, dir, files)
    decreases longest - |Prefix(dir)|
  {
    PrefixBounded(refs, dir, longest);
    var node := Open(refs, dir);
    assert node.Ok?;
    var es := node.value.entries;
    files := [];
    for i := 0 to |es|
      invariant WalkedFirst(refs, dir, es, i, files)
    {
      var e, child := es[i], Join(dir, es[i].name);
      assert e in es;
      ghost var q :| q in refs && Leads(dir, e, q);
      ChildIsGood(refs, dir, e, q);
      var below: seq<string>;
      if e.isDir {
        below := Walk(refs, child, longest);
      } else {
        var file := Open(refs, child);
        assert file == Ok(File(refs[child]));
        below := [child];
      }
      BelowEntry(refs, dir, e, q, below);
      WalkedOneMore(refs, dir, es, i, files, below);
      files := files + below;
    }
    WalkedAll(refs, dir, es, files);
  }

  lemma PrefixBounded(refs: Refs, dir: string, longest: nat)
    requires GoodDir(refs, dir) && forall p :: p in refs ==> |p| <= longest
    ensures |Prefix(dir)| <= longest
  {
  }

  lemma LeadsBelow(dir: string, e: Entry, p: string)
    requires e.isDir && '/' !in e.name && HasPrefix(p, Join(dir, e.name) + "/")
    ensures Leads(dir, e, p)
  {
    var n := |Prefix(dir)|;
    assert Join(dir, e.name) + "/" == Prefix(dir) + (e.name + "/");
    assert p[..n + |e.name| + 1] == Prefix(dir) + (e.name + "/");
    assert p[..n] == Prefix(dir);
    var rest := p[n..];
    assert rest[..|e.name| + 1] == e.name + "/";
    assert rest[|e.name|] == '/' && forall i :: 0 <= i < |e.name| ==> rest[i] == e.name[i];
    FirstSlashIs(rest, |e.name|);
  }

  lemma LeadsTo(dir: string, e: Entry)
    requires !e.isDir && '/' !in e.name
    ensures Leads(dir, e, Join(dir, e.name))
  {
    var p := Join(dir, e.name);
    assert p[|Prefix(dir)|..] == e.name;
    FirstSlashIs(e.name, |e.name|);
  }

  /** What is found below entry e of dir is exactly what e leads to. */
  lemma BelowEntry(refs: Refs, dir: string, e: Entry, q: string, below: seq<string>)
    requires GoodRefs(refs) && q in refs && Leads(dir, e, q)
    requires if e.isDir then Join(dir, e.name) != "." && Walked(refs, Join(dir, e.name), below)
             else below == [Join(dir, e.name)]
    ensures Distinct(below) && forall p :: p in below <==> p in refs && Leads(dir, e, p)
  {
    LeadsParts(dir, e, q);
    forall p ensures p in below <==> p in refs && Leads(dir, e, p) {
      if Leads(dir, e, p) { LeadsParts(dir, e, p); }
      if e.isDir {
        if HasPrefix(p, Join(dir, e.name) + "/") { LeadsBelow(dir, e, p); }
      } else {
        LeadsTo(dir, e);
      }
    }
  }

  lemma WalkedOneMore(refs: Refs, dir: string, es: seq<Entry>, i: nat, files: seq<string>, below: seq<string>)
    requires i < |es| && SortedByName(es) && WalkedFirst(refs, dir, es, i, files)
    requires Distinct(below) && forall p :: p in below <==> p in refs && Leads(dir, es[i], p)
    ensures WalkedFirst(refs, dir, es, i + 1, files + below)
  {
    forall p | p in files ensures p !in below {
      var k :| 0 <= k < i && Leads(dir, es[k], p);
      assert Less(es[k].name, es[i].name);
    }
    DistinctAppend(files, below);
    forall p ensures p in files + below <==> p in refs && exists k :: 0 <= k < i + 1 && Leads(dir, es[k], p) {
      assert p in files + below <==> p in files || p in below;
    }
  }

  lemma WalkedAll(refs: Refs, dir: string, es: seq<Entry>, files: seq<string>)
    requires GoodRefs(refs) && IsListing(refs, dir, es) && WalkedFirst(refs, dir, es, |es|, files)
    ensures Walked(refs, dir, files)
  {
    forall p ensures p in files <==> p in refs && HasPrefix(p, Prefix(dir)) {
      if p in refs && HasPrefix(p, Prefix(dir)) {
        EntryListed(refs, dir, es, p);
        var i :| 0 <= i < |es| && es[i] == EntryFor(dir, p);
        assert Leads(dir, es[i], p);
      }
    }
  }

  /** Walking from "." yields exactly the logical names, each once. */
  method WalkAll(refs: Refs) returns (files: seq<string>)
    requires GoodRefs(refs)
    ensures Distinct(files) && forall p :: p in files <==> p in refs
  {
    ghost var longest := Longest(refs.Keys);
    assert ValidPath(".") == false by { FirstSlashIs(".", 1); assert "."[..1] == "."; }
    files := Walk(refs, ".", longest);
  }

  ghost function Longest(s: set<string>): (n: nat)
    ensures forall p :: p in s ==> |p| <= n
  {
    if s == {} then 0
    else
      var p :| p in s;
      var n := Longest(s - {p});
      if |p| > n then |p| else n
  }

  // ---------------------------------------------------------------- paged reads

  /** An open directory. */
  class DirFile {
    const entries: seq<Entry>
    var offset: nat
    ghost var delivered: seq<Entry>  // the pages so far, one after the other

    ghost predicate Valid()
      reads this
    {
      offset <= |entries| && delivered == entries[..offset]
    }

    constructor (entries: seq<Entry>)
      ensures Valid() && this.entries == entries && delivered == []
    {
      this.entries, offset, delivered := entries, 0, [];
    }

    /** Pages never overlap or skip an entry; the end is reported only when all entries have been delivered. */
    method ReadDir(n: int) returns (page: seq<Entry>, eof: bool)
      requires Valid()
      modifies this
      ensures Valid() && delivered == old(delivered) + page
      ensures n <= 0 ==> !eof && delivered == entries
      ensures n > 0 ==> |page| <= n && (eof <==> old(delivered) == entries)
      ensures n > 0 && |page| < n ==> delivered == entries
    {
      if n <= 0 {
        page := entries[offset..];
        offset := |entries|;
        delivered := delivered + page;
        return page, false;
      }
      var k := if |entries| - offset < n then |entries| - offset else n;
      if k <= 0 {
        assert old(delivered) == entries;
        return [], true;
      }
      page := entries[offset..offset + k];
      offset := offset + k;
      delivered := delivered + page;
      assert |old(delivered)| < |entries|;
      return page, false;
    }
  }

  /** Any sequence of paged reads that reaches the end concatenates to the listing. */
  method ReadPages(d: DirFile, sizes: seq<int>) returns (all: seq<Entry>, eof: bool)
    requires d.Valid() && d.delivered == []
    modifies d
    ensures d.Valid() && all <= d.entries
    ensures eof ==> all == d.entries
  {
    all := [];
    for i := 0 to |sizes|
      invariant d.Valid() && d.delivered == all
    {
      var page, end := d.ReadDir(sizes[i]);
      all := all + page;
      if end { return all, true; }
    }
    return all, false;
  }
}
