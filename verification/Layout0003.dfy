/** Storage layout 0003: an object's path from its id and a hash of it. */
module Layout0003 {
  import opened Int64
  import opened Values

  type Bytes = seq<Byte>

  const PERCENT: Byte := 0x25
  const SLASH: Byte := 0x2f
  const DASH: Byte := 0x2d
  const MAX_ENCODED := 100

  // ---------------------------------------------------------------- percent encoding

  predicate ShouldEscape(c: Byte) {
    !(0x61 <= c <= 0x7a || 0x41 <= c <= 0x5a || 0x30 <= c <= 0x39 || c == 0x2d || c == 0x5f)
  }

  function HexDigit(n: int): Byte
    requires 0 <= n < 16
  {
    if n < 10 then 0x30 + n else 0x61 + n - 10
  }

  function HexValue(c: Byte): int {
    if 0x30 <= c <= 0x39 then c - 0x30 else if 0x61 <= c <= 0x66 then c - 0x61 + 10 else -1
  }

  function Escaped(c: Byte): Bytes {
    if ShouldEscape(c) then [PERCENT, HexDigit(c / 16), HexDigit(c % 16)] else [c]
  }

  function Encoded(s: Bytes): Bytes {
    if s == [] then [] else Encoded(s[..|s| - 1]) + Escaped(s[|s| - 1])
  }

  function CountEscapes(s: Bytes): nat {
    if s == [] then 0 else CountEscapes(s[..|s| - 1]) + if ShouldEscape(s[|s| - 1]) then 1 else 0
  }

  method CountEscaped(input: Bytes) returns (n: nat)
    ensures n == CountEscapes(input)
  {
    n := 0;
    for i := 0 to |input|
      invariant n == CountEscapes(input[..i])
    {
      assert input[..i + 1][..i] == input[..i];
      if ShouldEscape(input[i]) { n := n + 1; }
    }
    assert input[..|input|] == input;
  }

  /** The length of what has been written when i bytes have been read. */
  function Position(input: Bytes, i: nat): nat
    requires i <= |input|
  {
    i + 2 * CountEscapes(input[..i])
  }

  lemma PositionStep(input: Bytes, i: nat)
    requires i < |input|
    ensures Position(input, i + 1) == Position(input, i) + |Escaped(input[i])| <= Position(input, |input|)
    ensures Encoded(input[..i + 1]) == Encoded(input[..i]) + Escaped(input[i])
  {
    assert input[..i + 1][..i] == input[..i];
    assert input[..|input|] == input;
    EscapesLeft(input, i + 1);
  }

  method FillBuffer(input: Bytes, out: array<Byte>)
    requires out.Length == Position(input, |input|)
    modifies out
    ensures out[..] == Encoded(input)
  {
    var j := 0;
    for i := 0 to |input|
      invariant j == Position(input, i) <= out.Length
      invariant out[..j] == Encoded(input[..i])
    {
      PositionStep(input, i);
      j := PutEscaped(out, j, input[i]);
    }
    assert input[..|input|] == input;
    assert out[..] == out[..j];
  }

  /** Writes one byte of the id at index j, in one or three bytes of the buffer. */
  method PutEscaped(out: array<Byte>, j: nat, c: Byte) returns (next: nat)
    requires j + |Escaped(c)| <= out.Length
    modifies out
    ensures next == j + |Escaped(c)| && out[..next] == old(out[..j]) + Escaped(c)
  {
    if ShouldEscape(c) {
      out[j] := PERCENT;
      out[j + 1] := HexDigit(c / 16);
      out[j + 2] := HexDigit(c % 16);
      return j + 3;
    }
    out[j] := c;
    return j + 1;
  }

  /** The buffer has just the right size, and is filled to its end. */
  method PercentEncode(input: Bytes) returns (r: Bytes)
    ensures r == Encoded(input)
  {
    var numEscape := CountEscaped(input);
    if numEscape == 0 {
      NothingEscaped(input);
      return input;
    }
    assert input[..|input|] == input;
    var out := new Byte[|input| + 2 * numEscape](_ => 0);
    FillBuffer(input, out);
    return out[..];
  }

  lemma {:induction false} EscapesLeft(s: Bytes, i: nat)
    requires i <= |s|
    ensures CountEscapes(s[..i]) <= CountEscapes(s)
    decreases |s|
  {
    if i < |s| {
      assert s[..|s| - 1][..i] == s[..i];
      EscapesLeft(s[..|s| - 1], i);
    } else {
      assert s[..i] == s;
    }
  }

  lemma {:induction false} NothingEscaped(s: Bytes)
    requires CountEscapes(s) == 0
    ensures Encoded(s) == s
  {
    if s != [] { NothingEscaped(s[..|s| - 1]); }
  }

  /** Reads encoded bytes back, from the front. */
  function Decoded(s: Bytes): Bytes {
    if s == [] then []
    else if s[0] == PERCENT && |s| >= 3 && HexValue(s[1]) >= 0 && HexValue(s[2]) >= 0
    then [HexValue(s[1]) * 16 + HexValue(s[2])] + Decoded(s[3..])
    else [s[0]] + Decoded(s[1..])
  }

  lemma {:induction false} EncodedSplit(c: Byte, s: Bytes)
    ensures Encoded([c] + s) == Escaped(c) + Encoded(s)
  {
    var t := [c] + s;
    if s == [] {
      assert t[..0] == [];
      assert Encoded(t) == Encoded([]) + Escaped(c);
    } else {
      assert t[..|t| - 1] == [c] + s[..|s| - 1];
      EncodedSplit(c, s[..|s| - 1]);
    }
  }

  /** Decoding is the inverse of encoding, on every byte string. */
  lemma {:induction false} DecodeEncoded(s: Bytes)
    ensures Decoded(Encoded(s)) == s
  {
    if s != [] {
      var c, rest := s[0], s[1..];
      assert s == [c] + rest;
      EncodedSplit(c, rest);
      DecodeEncoded(rest);
      var e := Encoded(s);
      if ShouldEscape(c) {
        assert e[3..] == Encoded(rest);
      } else {
        assert e[1..] == Encoded(rest);
      }
    }
  }

  /** What encoding does to one byte: letters, digits, '-' and '_' stay, others become '%' and two hex digits. */
  predicate IsEncodedByte(c: Byte, e: Bytes) {
    var x := c as char;
    if 'a' <= x <= 'z' || 'A' <= x <= 'Z' || '0' <= x <= '9' || x == '-' || x == '_' then e == [c]
    else |e| == 3 && e[0] as char == '%' && HexPair(c, e[1], e[2])
  }

  /** The lower-case hex digits of a byte. */
  predicate HexPair(c: Byte, high: Byte, low: Byte) {
    high as char == "0123456789abcdef"[c / 16] && low as char == "0123456789abcdef"[c % 16]
  }

  lemma HexDigitIs(n: int)
    requires 0 <= n < 16
    ensures HexDigit(n) as char == "0123456789abcdef"[n]
  {
  }

  /** The encoded id is that of its bytes, one after the other. */
  lemma {:induction false} EncodedBytes(s: Bytes)
    ensures s == [] ==> Encoded(s) == []
    ensures s != [] ==> exists e :: IsEncodedByte(s[0], e) && Encoded(s) == e + Encoded(s[1..])
  {
    if s != [] {
      assert s == [s[0]] + s[1..];
      EncodedSplit(s[0], s[1..]);
      EscapedIs(s[0]);
    }
  }

  lemma EscapedIs(c: Byte)
    ensures IsEncodedByte(c, Escaped(c))
  {
    HexDigitIs(c / 16);
    HexDigitIs(c % 16);
  }

  lemma {:induction false} EncodedHasNoSlash(s: Bytes)
    ensures SLASH !in Encoded(s)
  {
    if s != [] { EncodedHasNoSlash(s[..|s| - 1]); }
  }

  // ---------------------------------------------------------------- the layout

  /** Two hex digits for each byte of a digest. */
  function Hex(d: Bytes): (r: Bytes)
    ensures |r| == 2 * |d|
  {
    if d == [] then []
    else
      var last := d[|d| - 1];
      Hex(d[..|d| - 1]) + [HexDigit(last / 16), HexDigit(last % 16)]
  }

  lemma {:induction false} HexCharacters(d: Bytes, i: nat)
    requires i < |d|
    ensures HexPair(d[i], Hex(d)[2 * i], Hex(d)[2 * i + 1])
  {
    if i < |d| - 1 {
      HexCharacters(d[..|d| - 1], i);
    } else {
      HexDigitIs(d[i] / 16);
      HexDigitIs(d[i] % 16);
    }
  }

  lemma {:induction false} HexHasNoSlash(d: Bytes)
    ensures SLASH !in Hex(d)
  {
    if d != [] { HexHasNoSlash(d[..|d| - 1]); }
  }

  lemma {:induction false} HexInjective(d: Bytes, e: Bytes)
    requires Hex(d) == Hex(e)
    ensures d == e
  {
    if d != [] {
      var n := |d| - 1;
      assert Hex(d)[..2 * n] == Hex(d[..n]) && Hex(e)[..2 * n] == Hex(e[..n]);
      HexInjective(d[..n], e[..n]);
      assert Hex(d)[2 * n] == HexDigit(d[n] / 16) && Hex(d)[2 * n + 1] == HexDigit(d[n] % 16);
      assert Hex(e)[2 * n] == HexDigit(e[n] / 16) && Hex(e)[2 * n + 1] == HexDigit(e[n] % 16);
      assert d == d[..n] + [d[n]] && e == e[..n] + [e[n]];
    }
  }

  /** Both parameters are 64-bit integers. */
  datatype Config = Config(tupleSize: int, tupleNum: int)
  {
    predicate IsInt() {
      IsInt64(tupleSize) && IsInt64(tupleNum)
    }
  }

  /** The configuration check; its product wraps around. */
  predicate Accepted(c: Config, hashSize: nat) {
    (c.tupleSize == 0 <==> c.tupleNum == 0) && Wrap64(c.tupleNum * c.tupleSize) <= 2 * hashSize
  }

  /** The tuples are within the hash. */
  predicate Fits(c: Config, hashSize: nat) {
    c.tupleSize >= 0 && c.tupleNum >= 0 && c.tupleNum * c.tupleSize <= 2 * hashSize
  }

  /** What the check is for: parameters that are both zero or both positive, and fit. */
  predicate Valid(c: Config, hashSize: nat) {
    (c.tupleSize == 0 <==> c.tupleNum == 0) && Fits(c, hashSize)
  }

  /** What the check accepts, and fits, is what it is for. */
  lemma ValidIsAccepted(c: Config, hashSize: nat)
    requires 2 * hashSize <= MAX_INT64
    ensures Valid(c, hashSize) <==> Accepted(c, hashSize) && Fits(c, hashSize)
  {
    if Fits(c, hashSize) { ProductGrows(0, c.tupleNum, c.tupleSize); }
  }

  /** The product is zero here: the check accepts four tuples of 2^62 characters. */
  lemma OverflowIsAccepted()
    ensures var c := Config(0x4000_0000_0000_0000, 4); c.IsInt() && Accepted(c, 32) && !Fits(c, 32) && c.tupleSize > 0
  {
  }

  /** The name of the object's own directory: the encoded id, or its beginning and the hash. */
  function LastName(id: Bytes, hash: Bytes): Bytes {
    var enc := Encoded(id);
    if |enc| > MAX_ENCODED then enc[..MAX_ENCODED] + [DASH] + hash else enc
  }

  /** Characters i * size up to (i + 1) * size. */
  function Tuple(hash: Bytes, size: nat, i: nat): Bytes {
    if (i + 1) * size <= |hash| then hash[i * size..(i + 1) * size] else []
  }

  /** The first n tuples of the hash, each followed by a slash. */
  function Tuples(hash: Bytes, size: nat, n: nat): Bytes {
    if n == 0 then [] else Tuples(hash, size, n - 1) + Tuple(hash, size, n - 1) + [SLASH]
  }

  /** Names joined by slashes. */
  function Join(names: seq<Bytes>): Bytes {
    if names == [] then []
    else if |names| == 1 then names[0]
    else Join(names[..|names| - 1]) + [SLASH] + names[|names| - 1]
  }

  lemma {:induction false} JoinTuples(hash: Bytes, size: nat, n: nat, names: seq<Bytes>)
    requires |names| == n + 1 && forall i: nat :: i < n ==> names[i] == Tuple(hash, size, i)
    ensures Join(names) == Tuples(hash, size, n) + names[n]
  {
    if n > 0 {
      JoinTuples(hash, size, n - 1, names[..n]);
      assert Join(names) == Join(names[..n]) + [SLASH] + names[n];
    }
  }

  /** Panic is a length, an index or a slice out of range. */
  datatype Resolved = Path(path: Bytes) | Invalid | Panic

  method Resolve(c: Config, h: Bytes -> Bytes, hashSize: nat, id: Bytes) returns (r: Resolved)
    requires c.IsInt() && |h(id)| == hashSize && 2 * hashSize <= MAX_INT64
    ensures r.Invalid? <==> !Accepted(c, hashSize)
    ensures r.Panic? <==> Accepted(c, hashSize) && !Fits(c, hashSize)
    ensures r.Path? <==> Valid(c, hashSize)
    ensures r.Invalid? <==> (c.tupleSize == 0 && c.tupleNum != 0) || (c.tupleNum == 0 && c.tupleSize != 0)
                            || Wrap64(c.tupleNum * c.tupleSize) > 2 * hashSize
    ensures r.Path? <==> (c.tupleSize == 0 && c.tupleNum == 0)
                         || (c.tupleSize > 0 && c.tupleNum > 0 && c.tupleNum * c.tupleSize <= 2 * hashSize)
    ensures r.Path? ==> r.path == PathOf(c, h, id) && IsPathFor(r.path, c, Hex(h(id)), Encoded(id))
  {
    ValidIsAccepted(c, hashSize);
    if !Accepted(c, hashSize) { return Invalid; }
    if c.tupleNum < 0 || c.tupleNum == MAX_INT64 {
      NoTuplesFit(c, hashSize);
      return Panic;  // the length of the slice, or the index of its last element
    }
    var hID := Hex(h(id));
    var tuples, ok := CutTuples(c, hID);
    if !ok { return Panic; }
    var encID := PercentEncode(id);
    if |encID| > MAX_ENCODED {
      encID := encID[..MAX_ENCODED] + [DASH] + hID;
    }
    tuples[c.tupleNum] := encID;
    JoinTuples(hID, c.tupleSize, c.tupleNum, tuples[..]);
    PathCharacters(c, h, id);
    return Path(Join(tuples[..]));
  }

  lemma NoTuplesFit(c: Config, hashSize: nat)
    requires c.tupleNum < 0 || c.tupleNum == MAX_INT64
    requires Accepted(c, hashSize) && 2 * hashSize <= MAX_INT64
    ensures !Fits(c, hashSize)
  {
    if c.tupleNum == MAX_INT64 && c.tupleSize > 0 {
      assert c.tupleNum * c.tupleSize == MAX_INT64 + c.tupleNum * (c.tupleSize - 1);
    }
  }

  /** The loop over the tuples; ok is false when the bounds of a tuple, which wrap around, are out of range. */
  method CutTuples(c: Config, hID: Bytes) returns (tuples: array<Bytes>, ok: bool)
    requires c.IsInt() && 0 <= c.tupleNum < MAX_INT64 && |hID| <= MAX_INT64
    requires c.tupleSize == 0 <==> c.tupleNum == 0
    ensures fresh(tuples) && tuples.Length == c.tupleNum + 1
    ensures ok <==> c.tupleSize >= 0 && c.tupleNum * c.tupleSize <= |hID|
    ensures ok ==> forall k: nat :: k < c.tupleNum ==> tuples[k] == Tuple(hID, c.tupleSize, k)
  {
    tuples := new Bytes[c.tupleNum + 1](_ => []);
    for i := 0 to c.tupleNum
      invariant 0 <= i * c.tupleSize <= |hID| && (i > 0 ==> c.tupleSize > 0)
      invariant forall k: nat :: k < i ==> tuples[k] == Tuple(hID, c.tupleSize, k)
    {
      var lo, hi := i * c.tupleSize, Wrap64((i + 1) * c.tupleSize);
      NextBound(i, c.tupleSize, |hID|);
      if hi < lo || hi > |hID| {
        if c.tupleSize > 0 { ProductGrows(i + 1, c.tupleNum, c.tupleSize); }
        return tuples, false;
      }
      tuples[i] := hID[lo..hi];
    }
    ok := true;
  }

  /** The upper bound of a tuple is out of range exactly when it is on unbounded integers. */
  lemma NextBound(i: nat, size: int, length: nat)
    requires IsInt64(size) && size != 0 && 0 <= i * size <= length <= MAX_INT64
    ensures var hi := Wrap64((i + 1) * size);
      if i * size <= hi <= length then hi == (i + 1) * size else size < 0 || (i + 1) * size > length
  {
    assert (i + 1) * size == i * size + size;
    WrapIsSafe(i * size, size);
  }

  lemma {:induction false} ProductGrows(i: nat, n: nat, size: nat)
    requires i <= n
    ensures i * size <= n * size
  {
    assert n * size == i * size + (n - i) * size;
  }

  /** An object's path below the storage root. */
  function PathOf(c: Config, h: Bytes -> Bytes, id: Bytes): Bytes
    requires c.tupleSize >= 0 && c.tupleNum >= 0
  {
    Tuples(Hex(h(id)), c.tupleSize, c.tupleNum) + LastName(id, Hex(h(id)))
  }

  lemma {:induction false} TuplesLength(hash: Bytes, size: nat, n: nat)
    requires n * size <= |hash|
    ensures |Tuples(hash, size, n)| == n * size + n
  {
    if n > 0 {
      TuplesLength(hash, size, n - 1);
      assert (n - 1) * size + size == n * size;
    }
  }

  /**
   Character by character: the tuples take the hash from its beginning on, with a slash after each of them, and
   then follows the encoded id, or its first 100 bytes, a dash, and the hash.
   */
  ghost predicate IsPathFor(path: Bytes, c: Config, hash: Bytes, encoded: Bytes) {
    && 0 <= c.tupleNum && 0 <= c.tupleSize && c.tupleNum * c.tupleSize <= |hash|
    && c.tupleNum * c.tupleSize + c.tupleNum <= |path|
    && (forall k: nat :: k < c.tupleNum ==> TupleIn(path, hash, c.tupleSize, k))
    && path[c.tupleNum * c.tupleSize + c.tupleNum..] ==
         if |encoded| > 100 then encoded[..100] + ['-' as Byte] + hash else encoded
  }

  /** Tuple k is in its place in the path, with a slash behind it. */
  predicate TupleIn(path: Bytes, hash: Bytes, size: nat, k: nat) {
    && k * size + k + size < |path| && k * size + size <= |hash|
    && path[k * size + k..k * size + k + size] == hash[k * size..k * size + size]
    && path[k * size + k + size] as char == '/'
  }

  lemma TupleStaysIn(t: Bytes, rest: Bytes, hash: Bytes, size: nat, k: nat)
    requires TupleIn(t, hash, size, k)
    ensures TupleIn(t + rest, hash, size, k)
  {
  }

  /** The tuple at the end of t, after k others of the same size. */
  lemma LastTupleIn(t: Bytes, tuple: Bytes, hash: Bytes, size: nat, k: nat)
    requires k * size + size <= |hash| && |t| == k * size + k && tuple == hash[k * size..k * size + size]
    ensures TupleIn(t + tuple + [SLASH], hash, size, k)
  {
    assert (t + tuple + [SLASH])[|t|..|t| + size] == tuple;
  }

  lemma {:induction false} TuplesAt(hash: Bytes, size: nat, n: nat, k: nat)
    requires n * size <= |hash| && k < n
    ensures TupleIn(Tuples(hash, size, n), hash, size, k)
  {
    var m := n - 1;
    assert m * size + size == n * size && (m + 1) * size == n * size;
    var t, tuple := Tuples(hash, size, m), Tuple(hash, size, m);
    if k < m {
      TuplesAt(hash, size, m, k);
      TupleStaysIn(t, tuple + [SLASH], hash, size, k);
      assert t + (tuple + [SLASH]) == t + tuple + [SLASH];
    } else {
      TuplesLength(hash, size, m);
      LastTupleIn(t, tuple, hash, size, m);
    }
  }

  lemma PathCharacters(c: Config, h: Bytes -> Bytes, id: Bytes)
    requires Fits(c, |h(id)|)
    ensures IsPathFor(PathOf(c, h, id), c, Hex(h(id)), Encoded(id))
  {
    var hash := Hex(h(id));
    var t, last := Tuples(hash, c.tupleSize, c.tupleNum), LastName(id, hash);
    TuplesLength(hash, c.tupleSize, c.tupleNum);
    forall k: nat | k < c.tupleNum ensures TupleIn(t + last, hash, c.tupleSize, k) {
      TuplesAt(hash, c.tupleSize, c.tupleNum, k);
      TupleStaysIn(t, last, hash, c.tupleSize, k);
    }
    assert (t + last)[|t|..] == last;
  }

  /** Two long ids that begin alike when encoded, and have the same hash. */
  predicate Collide(h: Bytes -> Bytes, id: Bytes, id': Bytes) {
    var e, e' := Encoded(id), Encoded(id');
    |e| > MAX_ENCODED && |e'| > MAX_ENCODED && e[..MAX_ENCODED] == e'[..MAX_ENCODED] && h(id) == h(id')
  }

  /** The short and the long form of the last name never coincide; a short one determines the id. */
  lemma SameLastName(h: Bytes -> Bytes, size: nat, id: Bytes, id': Bytes)
    requires |h(id)| == |h(id')| == size
    ensures LastName(id, Hex(h(id))) == LastName(id', Hex(h(id'))) <==> id == id' || Collide(h, id, id')
  {
    var n, n' := LastName(id, Hex(h(id))), LastName(id', Hex(h(id')));
    DecodeEncoded(id);
    DecodeEncoded(id');
    if n == n' && |Encoded(id)| > MAX_ENCODED {
      assert n[..MAX_ENCODED] == Encoded(id)[..MAX_ENCODED] && n'[..MAX_ENCODED] == Encoded(id')[..MAX_ENCODED];
      assert n[MAX_ENCODED + 1..] == Hex(h(id)) && n'[MAX_ENCODED + 1..] == Hex(h(id'));
      HexInjective(h(id), h(id'));
    }
  }

  /**
   Two ids have the same path exactly when they are equal, or both are too long, begin alike, and have the same
   hash; for every configuration that does not panic and every hash function whose results have one length.
   */
  lemma SamePath(c: Config, h: Bytes -> Bytes, size: nat, id: Bytes, id': Bytes)
    requires Fits(c, size) && |h(id)| == |h(id')| == size
    ensures PathOf(c, h, id) == PathOf(c, h, id') <==> id == id' || Collide(h, id, id')
  {
    var t, t' := Tuples(Hex(h(id)), c.tupleSize, c.tupleNum), Tuples(Hex(h(id')), c.tupleSize, c.tupleNum);
    TuplesLength(Hex(h(id)), c.tupleSize, c.tupleNum);
    TuplesLength(Hex(h(id')), c.tupleSize, c.tupleNum);
    assert LastName(id, Hex(h(id))) == PathOf(c, h, id)[|t|..];
    assert LastName(id', Hex(h(id'))) == PathOf(c, h, id')[|t'|..];
    SameLastName(h, size, id, id');
  }

  /** Among ids whose hashes do not collide, different ids have different paths. */
  lemma PathsInjective(c: Config, h: Bytes -> Bytes, size: nat, ids: set<Bytes>)
    requires Fits(c, size) && forall id :: id in ids ==> |h(id)| == size
    requires forall id, id' :: id in ids && id' in ids && h(id) == h(id') ==> id == id'
    ensures forall id, id' :: id in ids && id' in ids && PathOf(c, h, id) == PathOf(c, h, id') ==> id == id'
  {
    forall id, id' | id in ids && id' in ids && PathOf(c, h, id) == PathOf(c, h, id') ensures id == id' {
      SamePath(c, h, size, id, id');
    }
  }

  /** The last name is one name: nothing in it separates directories. */
  lemma LastNameHasNoSlash(id: Bytes, digest: Bytes)
    ensures SLASH !in LastName(id, Hex(digest))
  {
    EncodedHasNoSlash(id);
    HexHasNoSlash(digest);
  }

  /** One object's path is never inside the directory of another. */
  lemma PathsNotNested(c: Config, h: Bytes -> Bytes, size: nat, id: Bytes, id': Bytes)
    requires Fits(c, size) && |h(id)| == |h(id')| == size
    ensures !(PathOf(c, h, id) + [SLASH] <= PathOf(c, h, id'))
  {
    var p, q := PathOf(c, h, id), PathOf(c, h, id');
    var n, n' := LastName(id, Hex(h(id))), LastName(id', Hex(h(id')));
    TuplesLength(Hex(h(id)), c.tupleSize, c.tupleNum);
    TuplesLength(Hex(h(id')), c.tupleSize, c.tupleNum);
    LastNameHasNoSlash(id', h(id'));
    assert (p + [SLASH])[|p|] == SLASH;
    assert |q| > |p| ==> q[|p|] == n'[|n|] && n'[|n|] in n';
  }
}
