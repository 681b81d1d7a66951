/** Copying a large object in parts. */
module Multipart {
  import opened Int64

  const MEGABYTE: int := 1024 * 1024
  const PART_SIZE_INCREMENT: int := 1 * MEGABYTE

  // ---------------------------------------------------------------- part sizes

  /** Conversion to a signed 32-bit integer. */
  function Wrap32(x: int): (w: int)
    ensures -0x8000_0000 <= w < 0x8000_0000 && (x - w) % 0x1_0000_0000 == 0
  {
    (x + 0x8000_0000) % 0x1_0000_0000 - 0x8000_0000
  }

  /** The part size after k increments. */
  function PartSize(initial: int, k: nat): (size: int)
    ensures initial > 0 ==> size > 0
  {
    initial + k * PART_SIZE_INCREMENT
  }

  /** The number of full parts after k increments. */
  function Quotient(totalSize: nat, initial: int, k: nat): nat
    requires initial > 0
  {
    totalSize / PartSize(initial, k)
  }

  /** A quotient that is too large, but looks small enough when truncated to 32 bits. */
  predicate Misread(q: nat, maxParts: int) {
    q >= maxParts > Wrap32(q)
  }

  lemma QuotientAtLeast(total: nat, a: int, q: int)
    requires a > 0 && a * q <= total
    ensures q <= total / a
  {
    var t := total / a;
    assert total == a * t + total % a;
    assert a * (t + 1) == a * t + a;
    if q >= t + 1 { ProductAtLeast(a, t + 1, q); }
  }

  lemma ProductAtLeast(a: int, x: int, y: int)
    requires a > 0 && x <= y
    ensures a * x <= a * y
  {
    assert a * y == a * x + a * (y - x);
  }

  lemma QuotientDecreases(total: nat, a: int, b: int)
    requires 0 < a <= b
    ensures 0 <= total / b <= total / a
  {
    var q := total / b;
    assert total == b * q + total % b;
    assert a * q <= b * q;
    QuotientAtLeast(total, a, q);
  }

  /** The number of parts of this size that are needed for the whole. */
  function PartCount(totalSize: nat, psize: int): nat
    requires psize > 0
  {
    totalSize / psize + if totalSize % psize > 0 then 1 else 0
  }

  /** The loop stops after k increments, and not before. */
  ghost predicate StopsAt(totalSize: nat, initial: int, maxParts: int, k: nat)
    requires initial > 0
  {
    && (forall j: nat :: j < k ==> Wrap32(Quotient(totalSize, initial, j)) >= maxParts)
    && Wrap32(Quotient(totalSize, initial, k)) < maxParts
  }

  /** The loop has stopped after k increments. */
  lemma StopIsRight(totalSize: nat, initial: int, maxParts: int, k: nat)
    requires initial > 0 && 1 <= maxParts <= 0x7fff_ffff
    requires forall j: nat :: j < k ==> Wrap32(Quotient(totalSize, initial, j)) >= maxParts
    requires Wrap32(Quotient(totalSize, initial, k)) < maxParts
    ensures var q := Quotient(totalSize, initial, k);
      Wrap32(q) == q <==> forall j: nat :: !Misread(Quotient(totalSize, initial, j), maxParts)
  {
    forall j: nat | k <= j ensures Quotient(totalSize, initial, j) <= Quotient(totalSize, initial, k) {
      QuotientDecreases(totalSize, PartSize(initial, k), PartSize(initial, j));
    }
  }

  /** The part size grows beyond 64 bits before the loop stops. */
  ghost predicate Overflows(totalSize: nat, initial: int, maxParts: int)
    requires initial > 0
  {
    exists k: nat :: PartSize(initial, k) <= MAX_INT64 < PartSize(initial, k) + PART_SIZE_INCREMENT
      && forall j: nat :: j <= k ==> Wrap32(Quotient(totalSize, initial, j)) >= maxParts
  }

  /** The number of full parts, converted to 32 bits. (The division of a size truncates in the same way as here.) */
  function Counted(totalSize: nat, psize: int): int
    requires psize != 0
  {
    Wrap32(totalSize / psize)
  }

  /** A part size that has overflowed is negative, and gives no part. */
  lemma NegativePart(totalSize: nat, psize: int)
    requires psize < 0 && totalSize <= 2 * -psize
    ensures Counted(totalSize, psize) <= 0
  {
    var q := totalSize / psize;
    assert totalSize == psize * q + totalSize % psize;
    assert q >= 1 ==> psize * q <= psize;
    assert q <= -3 ==> psize * q >= psize * -3;
    assert -3 < q < 1;
  }

  lemma LargePart(totalSize: nat, psize: int)
    requires psize > 0 && Counted(totalSize, psize) >= 1
    ensures psize <= totalSize
  {
  }

  /** The loop that grows the part size has taken k increments. */
  ghost predicate Grown(totalSize: nat, initial: int, maxParts: int, k: nat, psize: int)
    requires initial > 0
  {
    && (forall j: nat :: j < k ==> Wrap32(Quotient(totalSize, initial, j)) >= maxParts)
    && if PartSize(initial, k) <= MAX_INT64 then psize == PartSize(initial, k)
       else k > 0 && PartSize(initial, k - 1) <= MAX_INT64 && psize == Wrap64(PartSize(initial, k))
  }

  lemma GrownSign(totalSize: nat, initial: int, maxParts: int, k: nat, psize: int)
    requires totalSize <= MAX_INT64 && initial > 0 && Grown(totalSize, initial, maxParts, k, psize)
    ensures if PartSize(initial, k) <= MAX_INT64 then psize == PartSize(initial, k) > 0
            else psize < 0 && Counted(totalSize, psize) <= 0
  {
    if PartSize(initial, k) > MAX_INT64 {
      assert PartSize(initial, k) == PartSize(initial, k - 1) + PART_SIZE_INCREMENT;
      WrapIsSafe(PartSize(initial, k - 1), PART_SIZE_INCREMENT);
      NegativePart(totalSize, psize);
    }
  }

  lemma GrowsAgain(totalSize: nat, initial: int, maxParts: int, k: nat, psize: int)
    requires totalSize <= MAX_INT64 && initial > 0 && maxParts >= 1 && Grown(totalSize, initial, maxParts, k, psize)
    requires psize != 0 && Counted(totalSize, psize) >= maxParts
    ensures 0 < psize <= totalSize
    ensures Grown(totalSize, initial, maxParts, k + 1, Wrap64(psize + PART_SIZE_INCREMENT))
  {
    GrownSign(totalSize, initial, maxParts, k, psize);
    LargePart(totalSize, psize);
    assert PartSize(initial, k + 1) == PartSize(initial, k) + PART_SIZE_INCREMENT;
    assert Quotient(totalSize, initial, k) == totalSize / psize;
  }

  /** What the loop has done when it stops. */
  lemma GrownEnough(totalSize: nat, initial: int, maxParts: int, k: nat, psize: int)
    requires totalSize <= MAX_INT64 && 0 < initial <= MAX_INT64 && 1 <= maxParts <= 0x7fff_ffff
    requires psize != 0 && Grown(totalSize, initial, maxParts, k, psize) && Counted(totalSize, psize) < maxParts
    ensures psize < 0 <==> Overflows(totalSize, initial, maxParts)
    ensures psize > 0 ==> psize == PartSize(initial, k) && StopsAt(totalSize, initial, maxParts, k)
    ensures psize > 0 ==> (Counted(totalSize, psize) == totalSize / psize <==>
                           forall j: nat :: !Misread(Quotient(totalSize, initial, j), maxParts))
  {
    GrownSign(totalSize, initial, maxParts, k, psize);
    if psize < 0 {
      assert PartSize(initial, k) == PartSize(initial, k - 1) + PART_SIZE_INCREMENT;
      assert forall j: nat :: j <= k - 1 ==> Wrap32(Quotient(totalSize, initial, j)) >= maxParts;
    } else {
      assert Quotient(totalSize, initial, k) == totalSize / psize;
      NoOverflow(totalSize, initial, maxParts, k);
      StopIsRight(totalSize, initial, maxParts, k);
    }
  }

  lemma NoOverflow(totalSize: nat, initial: int, maxParts: int, k: nat)
    requires initial > 0 && PartSize(initial, k) <= MAX_INT64 && Wrap32(Quotient(totalSize, initial, k)) < maxParts
    ensures !Overflows(totalSize, initial, maxParts)
  {
  }

  lemma CountedIsLess(totalSize: nat, psize: int)
    requires psize > 0
    ensures Counted(totalSize, psize) <= totalSize / psize
  {
    QuotientAtLeast(totalSize, psize, 0);
  }

  /** The part size and count, when the loop has stopped. */
  lemma Adjusted(totalSize: nat, initial: int, maxParts: int, k: nat, psize: int, pcount: int)
    requires totalSize <= MAX_INT64 && 0 < initial <= MAX_INT64 && 1 <= maxParts <= 0x7fff_ffff
    requires psize != 0 && Grown(totalSize, initial, maxParts, k, psize) && Counted(totalSize, psize) < maxParts
    requires pcount == Counted(totalSize, psize) + if totalSize % psize > 0 then 1 else 0
    ensures psize < 0 <==> Overflows(totalSize, initial, maxParts)
    ensures psize > 0 ==> StopsAt(totalSize, initial, maxParts, k) && psize == initial + k * 1_048_576
    ensures pcount <= maxParts && (psize > 0 ==> pcount <= PartCount(totalSize, psize))
    ensures psize > 0 ==> (pcount == PartCount(totalSize, psize) <==>
                           forall j: nat :: !Misread(Quotient(totalSize, initial, j), maxParts))
  {
    GrownEnough(totalSize, initial, maxParts, k, psize);
    if psize > 0 { CountedIsLess(totalSize, psize); }
  }

  /**
   The loop that grows the part size, in 64-bit arithmetic. Unless it overflows, it gives at most maxParts parts,
   which are enough for the whole size exactly when the 32-bit conversion never makes a quotient that is too large
   look small.
   */
  method AdjustPartSize(totalSize: nat, initialPartSize: int, maxParts: int) returns (psize: int, pcount: int)
    requires totalSize <= MAX_INT64 && 0 < initialPartSize <= MAX_INT64 && 1 <= maxParts <= 0x7fff_ffff
    ensures psize < 0 <==> Overflows(totalSize, initialPartSize, maxParts)
    ensures psize != 0 && pcount == Wrap32(totalSize / psize) + if totalSize % psize > 0 then 1 else 0
    ensures psize > 0 ==> exists k: nat ::
              StopsAt(totalSize, initialPartSize, maxParts, k) && psize == initialPartSize + k * 1_048_576
    ensures psize <= MAX_INT64 && pcount <= maxParts && (psize > 0 ==> pcount <= PartCount(totalSize, psize))
    ensures psize > 0 ==> (pcount == PartCount(totalSize, psize) <==>
                           forall k: nat :: !Misread(Quotient(totalSize, initialPartSize, k), maxParts))
  {
    psize := initialPartSize;
    ghost var k: nat := 0;
    while true
      invariant psize != 0 && psize <= MAX_INT64 && Grown(totalSize, initialPartSize, maxParts, k, psize)
      decreases if psize < 0 then 0 else totalSize - psize + MAX_INT64
    {
      pcount := Counted(totalSize, psize);
      if pcount < maxParts { break; }
      GrowsAgain(totalSize, initialPartSize, maxParts, k, psize);
      GrownSign(totalSize, initialPartSize, maxParts, k + 1, Wrap64(psize + PART_SIZE_INCREMENT));
      psize, k := Wrap64(psize + PART_SIZE_INCREMENT), k + 1;
    }
    if totalSize % psize > 0 { pcount := pcount + 1; }
    Adjusted(totalSize, initialPartSize, maxParts, k, psize, pcount);
  }

  /** Only a copy in one part can overflow. */
  lemma OverflowIsOnePart(totalSize: nat, initial: int, maxParts: int)
    requires totalSize <= MAX_INT64 && initial > 0 && maxParts >= 1 && Overflows(totalSize, initial, maxParts)
    ensures maxParts == 1
  {
    var k: nat :| PartSize(initial, k) <= MAX_INT64 < PartSize(initial, k) + PART_SIZE_INCREMENT
      && forall j: nat :: j <= k ==> Wrap32(Quotient(totalSize, initial, j)) >= maxParts;
    assert Wrap32(Quotient(totalSize, initial, k)) >= maxParts;
    QuotientDecreases(totalSize, 0x6000_0000_0000_0000, PartSize(initial, k));
  }

  /** And it does, for the largest size and part. */
  lemma OverflowHappens()
    ensures Overflows(MAX_INT64, MAX_INT64, 1)
  {
    assert PartSize(MAX_INT64, 0) == MAX_INT64;
    assert Quotient(MAX_INT64, MAX_INT64, 0) == 1;
  }

  /** No truncation happens when the quotient by the initial part size fits in 32 bits. */
  lemma SmallQuotient(totalSize: nat, initial: int, maxParts: int, k: nat)
    requires initial > 0 && totalSize / initial < 0x8000_0000
    ensures !Misread(Quotient(totalSize, initial, k), maxParts)
  {
    QuotientDecreases(totalSize, initial, PartSize(initial, k));
  }

  // ---------------------------------------------------------------- ranges

  /** The first byte of part number partNum, counted from 1. */
  function RangeStart(partNum: int, psize: int): int {
    (partNum - 1) * psize
  }

  /** The last byte, inclusive. */
  function RangeEnd(partNum: int, psize: int, totalSize: nat): int {
    var end := partNum * psize - 1;
    if end > totalSize - 1 then totalSize - 1 else end
  }

  /** The same in 64-bit arithmetic. */
  function RangeEnd64(partNum: int, psize: int, totalSize: nat): int {
    var end := Wrap64(partNum * psize - 1);
    if end > totalSize - 1 then totalSize - 1 else end
  }

  /** It is negative, and the range is refused, exactly when the product does not fit in 64 bits. */
  lemma RangeFits(totalSize: nat, psize: int, i: int)
    requires 0 < psize <= MAX_INT64 && totalSize <= MAX_INT64 && 1 <= i <= PartCount(totalSize, psize)
    ensures if i * psize - 1 <= MAX_INT64 then RangeEnd64(i, psize, totalSize) == RangeEnd(i, psize, totalSize) >= 0
            else RangeEnd64(i, psize, totalSize) < 0
  {
    RangesTile(totalSize, psize, i);
    assert i * psize == (i - 1) * psize + psize;
    WrapIsSafe((i - 1) * psize, psize - 1);
  }

  lemma CountBounds(totalSize: nat, psize: int)
    requires psize > 0
    ensures var n := PartCount(totalSize, psize); n * psize >= totalSize && (n > 0 ==> (n - 1) * psize < totalSize)
  {
    var q, r := totalSize / psize, totalSize % psize;
    assert totalSize == q * psize + r;
    if r > 0 {
      assert (q + 1) * psize == q * psize + psize;
    } else if q > 0 {
      assert (q - 1) * psize == q * psize - psize;
    }
  }

  /** The ranges of parts 1..n are not empty, and each begins where the one before it ends. */
  lemma RangesTile(totalSize: nat, psize: int, i: int)
    requires psize > 0 && 1 <= i <= PartCount(totalSize, psize)
    ensures 0 <= RangeStart(i, psize) <= RangeEnd(i, psize, totalSize) < totalSize
    ensures RangeStart(1, psize) == 0
    ensures if i < PartCount(totalSize, psize) then RangeEnd(i, psize, totalSize) + 1 == RangeStart(i + 1, psize)
            else RangeEnd(i, psize, totalSize) == totalSize - 1
  {
    var n := PartCount(totalSize, psize);
    CountBounds(totalSize, psize);
    assert (i - 1) * psize <= (n - 1) * psize;
    assert i * psize == (i - 1) * psize + psize;
    assert i < n ==> i * psize <= (n - 1) * psize;
    assert i == n ==> i * psize == n * psize;
  }

  /** Byte x is in the range of part i. */
  predicate InPart(totalSize: nat, psize: int, i: int, x: nat)
    requires psize > 0
  {
    1 <= i <= PartCount(totalSize, psize) && RangeStart(i, psize) <= x <= RangeEnd(i, psize, totalSize)
  }

  /** Every byte is in the range of exactly one part. */
  lemma ByteInOnePart(totalSize: nat, psize: int, x: nat)
    requires psize > 0 && x < totalSize
    ensures InPart(totalSize, psize, x / psize + 1, x)
    ensures forall j :: InPart(totalSize, psize, j, x) ==> j == x / psize + 1
  {
    QuotientGrows(x, totalSize, psize);
    QuotientAtLeast(x, psize, 0);
    RangeOf(x, psize, x / psize + 1, totalSize);
    forall j | InPart(totalSize, psize, j, x) ensures j == x / psize + 1 {
      OnlyPart(totalSize, psize, j, x);
    }
  }

  lemma OnlyPart(totalSize: nat, psize: int, j: int, x: nat)
    requires psize > 0 && InPart(totalSize, psize, j, x)
    ensures j == x / psize + 1
  {
    InRange(x, psize, j);
  }

  lemma RangeOf(x: nat, psize: int, i: int, totalSize: nat)
    requires psize > 0 && i == x / psize + 1 && x < totalSize
    ensures RangeStart(i, psize) <= x <= RangeEnd(i, psize, totalSize)
  {
    assert x == (i - 1) * psize + x % psize;
    assert i * psize == (i - 1) * psize + psize;
  }

  lemma InRange(x: nat, psize: int, j: int)
    requires psize > 0 && j >= 1 && (j - 1) * psize <= x < j * psize
    ensures j == x / psize + 1
  {
    var q := x / psize;
    assert x == psize * q + x % psize;
    QuotientAtLeast(x, psize, j - 1);
    assert j <= q ==> j * psize <= q * psize;
  }

  lemma QuotientGrows(x: nat, total: nat, psize: int)
    requires psize > 0 && x < total
    ensures x / psize + 1 <= PartCount(total, psize)
  {
    CountBounds(total, psize);
    var n, q := PartCount(total, psize), x / psize;
    assert q * psize <= x;
    assert q >= n ==> q * psize >= n * psize;
  }

  // ---------------------------------------------------------------- the copy

  /** A completed part: its number, and the bytes that the service keeps for it. */
  datatype Part = NoPart | Part(number: int, data: seq<int>)

  function Slice(src: seq<int>, psize: int, i: int): seq<int>
    requires psize > 0 && 1 <= i <= PartCount(|src|, psize)
  {
    RangesTile(|src|, psize, i);
    src[RangeStart(i, psize)..RangeEnd(i, psize, |src|) + 1]
  }

  /** What completing the upload makes of the parts, in the order of the list. */
  function Assembled(parts: seq<Part>): seq<int> {
    if parts == [] then []
    else
      var last := parts[|parts| - 1];
      Assembled(parts[..|parts| - 1]) + if last.Part? then last.data else []
  }

  /** Where the first n parts end. */
  function EndOf(n: nat, psize: int, totalSize: nat): int {
    if n == 0 then 0 else RangeEnd(n, psize, totalSize) + 1
  }

  lemma EndInside(n: nat, psize: int, totalSize: nat)
    requires psize > 0 && n <= PartCount(totalSize, psize)
    ensures 0 <= EndOf(n, psize, totalSize) <= totalSize
    ensures EndOf(n, psize, totalSize) == totalSize <==> n == PartCount(totalSize, psize)
  {
    CountBounds(totalSize, psize);
    if n > 0 {
      RangesTile(totalSize, psize, n);
      if n < PartCount(totalSize, psize) { RangesTile(totalSize, psize, n + 1); }
    } else if PartCount(totalSize, psize) > 0 {
      RangesTile(totalSize, psize, 1);
    }
  }

  lemma {:induction false} FirstPartsAssemble(src: seq<int>, psize: int, parts: seq<Part>, n: nat)
    requires psize > 0 && n <= |parts| <= PartCount(|src|, psize)
    requires forall i :: 0 <= i < |parts| ==> parts[i] == Part(i + 1, Slice(src, psize, i + 1))
    ensures 0 <= EndOf(n, psize, |src|) <= |src| && Assembled(parts[..n]) == src[..EndOf(n, psize, |src|)]
  {
    if n > 0 {
      FirstPartsAssemble(src, psize, parts, n - 1);
      assert parts[..n][..n - 1] == parts[..n - 1];
      RangesTile(|src|, psize, n);
      if n > 1 { RangesTile(|src|, psize, n - 1); }
    }
  }

  /** The first parts assemble to the beginning of the source, and to all of it exactly when they are all parts. */
  lemma PartsAssemble(src: seq<int>, psize: int, parts: seq<Part>)
    requires psize > 0 && |parts| <= PartCount(|src|, psize)
    requires forall i :: 0 <= i < |parts| ==> parts[i] == Part(i + 1, Slice(src, psize, i + 1))
    ensures Assembled(parts) <= src
    ensures Assembled(parts) == src <==> |parts| == PartCount(|src|, psize)
  {
    FirstPartsAssemble(src, psize, parts, |parts|);
    assert parts[..|parts|] == parts;
    EndInside(|parts|, psize, |src|);
  }

  function Indices(n: nat): (s: set<nat>)
    ensures forall i: nat :: i in s <==> i < n
  {
    if n == 0 then {} else Indices(n - 1) + {n - 1}
  }

  /** The end of part i fits in 64 bits. */
  predicate EndFits(psize: int, i: int) {
    i * psize - 1 <= MAX_INT64
  }

  /** The service copies the given range, unless its end is negative. */
  function UploadPartCopy(src: seq<int>, psize: int, i: int): (part: Part)
    requires 0 < psize <= MAX_INT64 && |src| <= MAX_INT64 && 1 <= i <= PartCount(|src|, psize)
    ensures part == if EndFits(psize, i) then Part(i, Slice(src, psize, i)) else NoPart
  {
    RangesTile(|src|, psize, i);
    RangeFits(|src|, psize, i);
    var end := RangeEnd64(i, psize, |src|);
    if end < 0 then NoPart else Part(i, src[RangeStart(i, psize)..end + 1])
  }

  /** Parts of this size, and no more than there are. */
  predicate Enough(src: seq<int>, psize: int, partCount: int) {
    0 < psize <= MAX_INT64 && |src| <= MAX_INT64 && 0 <= partCount <= PartCount(|src|, psize)
  }

  /** Part i + 1 has been copied. */
  predicate Copied(src: seq<int>, psize: int, i: nat, part: Part) {
    Enough(src, psize, i + 1) && part.Part? && part == UploadPartCopy(src, psize, i + 1)
  }

  /** Which requests of a copy succeed. */
  datatype Service = Service(create: bool, part: int -> bool, complete: bool)

  /** The goroutine of part i + 1. */
  method CopyPart(src: seq<int>, psize: int, partCount: nat, i: nat, service: Service) returns (part: Part)
    requires Enough(src, psize, partCount) && i < partCount
    ensures part.Part? <==> PartWorks(psize, i, service)
    ensures part.Part? ==> Copied(src, psize, i, part)
  {
    part := NoPart;
    if service.part(i + 1) { part := UploadPartCopy(src, psize, i + 1); }
  }

  /** The request for part i + 1 succeeds: the service does not fail, and the range does not overflow. */
  predicate PartWorks(psize: int, i: nat, service: Service) {
    service.part(i + 1) && EndFits(psize, i + 1)
  }

  /** data is what n parts hold: the beginning of the source, and all of it exactly when n parts are enough. */
  ghost predicate IsBeginning(src: seq<int>, psize: int, n: nat, data: seq<int>)
    requires psize > 0
  {
    && data <= src && |data| == (if n * psize < |src| then n * psize else |src|)
    && (data == src <==> n >= PartCount(|src|, psize))
  }

  lemma CopiedParts(src: seq<int>, psize: int, parts: seq<Part>)
    requires 0 < psize <= MAX_INT64 && |src| <= MAX_INT64 && |parts| <= PartCount(|src|, psize)
    requires forall i :: 0 <= i < |parts| ==> Copied(src, psize, i, parts[i])
    ensures forall i :: 0 <= i < |parts| ==> parts[i].Part? && parts[i].number == i + 1
    ensures IsBeginning(src, psize, |parts|, Assembled(parts))
  {
    forall i | 0 <= i < |parts| ensures parts[i] == Part(i + 1, Slice(src, psize, i + 1)) {
      assert Copied(src, psize, i, parts[i]);
    }
    PartsAssemble(src, psize, parts);
    FirstPartsAssemble(src, psize, parts, |parts|);
    assert parts[..|parts|] == parts;
    EndInside(|parts|, psize, |src|);
  }

  /** The part loop: goroutines fill the slots of the list in any order; one that fails makes the copy fail. */
  method FillSlots(src: seq<int>, psize: int, partCount: int, service: Service)
    returns (ok: bool, completed: array<Part>)
    requires Enough(src, psize, partCount)
    ensures fresh(completed) && completed.Length == partCount
    ensures ok <==> forall i: nat :: i < partCount ==> PartWorks(psize, i, service)
    ensures ok ==> forall i: nat :: i < partCount ==> Copied(src, psize, i, completed[i])
  {
    completed := new Part[partCount](_ => NoPart);
    var running: set<nat> := Indices(partCount);
    ok := true;
    while running != {}
      invariant forall i :: i in running ==> i < partCount
      invariant ok <==> forall i: nat :: i < partCount && i !in running ==> PartWorks(psize, i, service)
      invariant ok ==> forall i: nat :: i < partCount && i !in running ==> Copied(src, psize, i, completed[i])
      decreases |running|
    {
      var i: nat :| i in running;
      running := running - {i};
      completed[i] := CopyPart(src, psize, partCount, i, service);
      ok := ok && completed[i].Part?;
    }
  }

  /** On success, the assembled parts are the beginning of the source, and all of it exactly when there are enough. */
  method CopyParts(src: seq<int>, psize: int, partCount: int, service: Service)
    returns (ok: bool, completed: array<Part>)
    requires Enough(src, psize, partCount)
    ensures fresh(completed) && completed.Length == partCount
    ensures ok <==> forall i: nat :: i < partCount ==> PartWorks(psize, i, service)
    ensures ok ==> forall i :: 0 <= i < completed.Length ==> completed[i].Part? && completed[i].number == i + 1
    ensures ok ==> IsBeginning(src, psize, partCount, Assembled(completed[..]))
  {
    ok, completed := FillSlots(src, psize, partCount, service);
    if ok { CopiedParts(src, psize, completed[..]); }
  }

  const MIN_PART_SIZE: int := 5 * MEGABYTE
  const DEFAULT_PART_SIZE: int := 32 * MEGABYTE
  const MAX_PARTS: int := 10000

  function InitialPartSize(partSize: int): int {
    if partSize < MIN_PART_SIZE then DEFAULT_PART_SIZE else partSize
  }

  /** What a copy in parts of this size does. */
  ghost predicate CopiesIn(src: seq<int>, psize: int, service: Service, dst: seq<int>, ok: bool)
    requires psize > 0
  {
    var n := Wrap32(|src| / psize) + if |src| % psize > 0 then 1 else 0;
    && (ok <==> service.create && service.complete && n >= 0
                && forall i: nat :: i < n ==> PartWorks(psize, i, service))
    && (ok ==> IsBeginning(src, psize, n, dst))
  }

  /**
   A copy completes the upload or aborts it, because a request fails or a range does not fit in 64 bits. A completed
   copy is the source if and only if no quotient was misread; otherwise it is only the beginning of the source. A
   negative count ends the copy at once.
   */
  method Copy(src: seq<int>, partSize: int, service: Service) returns (dst: seq<int>, ok: bool)
    requires |src| <= MAX_INT64 && IsInt64(partSize)
    ensures exists k: nat, psize: int ::
              && psize == (if partSize < 5_242_880 then 33_554_432 else partSize) + k * 1_048_576
              && psize > 0 && StopsAt(|src|, InitialPartSize(partSize), 10_000, k)
              && CopiesIn(src, psize, service, dst, ok)
    ensures ok ==> dst <= src
    ensures ok ==> (dst == src <==> forall k: nat :: !Misread(Quotient(|src|, InitialPartSize(partSize), k), MAX_PARTS))
  {
    var psize, partCount := AdjustPartSize(|src|, InitialPartSize(partSize), MAX_PARTS);
    if psize < 0 { OverflowIsOnePart(|src|, InitialPartSize(partSize), MAX_PARTS); }
    ghost var k: nat :|
      StopsAt(|src|, InitialPartSize(partSize), MAX_PARTS, k) && psize == InitialPartSize(partSize) + k * 1_048_576;
    dst, ok := CopyIn(src, psize, partCount, service);
  }

  /** The upload, when its parts are determined. */
  method CopyIn(src: seq<int>, psize: int, partCount: int, service: Service) returns (dst: seq<int>, ok: bool)
    requires 0 < psize <= MAX_INT64 && |src| <= MAX_INT64 && partCount <= PartCount(|src|, psize)
    requires partCount == Wrap32(|src| / psize) + if |src| % psize > 0 then 1 else 0
    ensures CopiesIn(src, psize, service, dst, ok)
    ensures ok ==> (dst == src <==> partCount == PartCount(|src|, psize))
  {
    if partCount < 0 || !service.create { return [], false; }
    var copied, completed := CopyParts(src, psize, partCount, service);
    if !copied || !service.complete { return [], false; }
    return Assembled(completed[..]), true;
  }

  /** It is not the source here: 20 PiB in parts of 5 MiB are copied in no part at all. */
  lemma TruncationHappens()
    ensures var total := 0x1_0000_0000 * MIN_PART_SIZE;
      && InitialPartSize(MIN_PART_SIZE) == MIN_PART_SIZE && total <= MAX_INT64
      && Misread(Quotient(total, MIN_PART_SIZE, 0), MAX_PARTS) && Wrap32(Quotient(total, MIN_PART_SIZE, 0)) == 0
  {
    assert 0x1_0000_0000 * MIN_PART_SIZE / MIN_PART_SIZE == 0x1_0000_0000;
  }

  /** Every object that fits in S3's limit of 5 TiB is copied whole. */
  lemma LargestObject(src: seq<int>, partSize: int, k: nat)
    requires |src| <= 5 * 1024 * 1024 * MEGABYTE
    ensures !Misread(Quotient(|src|, InitialPartSize(partSize), k), MAX_PARTS)
  {
    QuotientDecreases(|src|, MIN_PART_SIZE, InitialPartSize(partSize));
    SmallQuotient(|src|, InitialPartSize(partSize), MAX_PARTS, k);
  }
}
