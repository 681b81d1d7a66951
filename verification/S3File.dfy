/** A seekable reader of a stored object, on top of streams that only read forward. */
module S3File {
  import opened Int64
  import opened Values

  datatype Error = NoError | EOF | Failed | InvalidWhence | NegativePosition

  datatype Whence = SeekStart | SeekCurrent | SeekEnd | Unknown

  /** An open response body: reading it gives the stored bytes from pos on, in pieces of any size. */
  class Body {
    const content: seq<Byte>
    var pos: nat
    var open: bool
    ghost var uses: nat    // how often it was read
    ghost var last: Error  // and what the last read has returned

    constructor (content: seq<Byte>, pos: nat)
      requires pos <= |content|
      ensures this.content == content && this.pos == pos && open && uses == 0
    {
      this.content, this.pos, open := content, pos, true;
      uses := 0;
    }

    method Read(n: nat) returns (p: seq<Byte>, err: Error)
      requires pos <= |content| && open
      modifies this`pos, this`uses, this`last
      ensures uses == old(uses) + 1 && last == err
      ensures |p| <= n && pos == old(pos) + |p| <= |content| && p == content[old(pos)..pos]
      ensures err == NoError || err == Failed || (err == EOF && pos == |content|)
    {
      var k: int := *;
      if k < 0 || k > n || k > |content| - pos { k := 0; }
      p := content[pos..pos + k];
      pos := pos + k;
      if pos == |content| && n > 0 {
        err := EOF;
      } else {
        var ok: bool := *;
        err := if ok then NoError else Failed;
      }
      uses, last := uses + 1, err;
    }

    method Close()
      modifies this`open
      ensures !open
    {
      open := false;
    }
  }

  class S3File {
    const content: seq<Byte>  // the stored object
    var body: Body?
    var offset: int
    ghost var requests: seq<bool>  // the requests for the object, and whether they succeeded

    /** An open body stands exactly at the offset. */
    ghost predicate Valid()
      reads this, body
    {
      && |content| <= MAX_INT64
      && 0 <= offset <= MAX_INT64
      && (body != null ==> body.open && body.content == content && body.pos == offset <= |content|)
    }

    constructor (content: seq<Byte>)
      requires |content| <= MAX_INT64
      ensures Valid() && this.content == content && offset == 0 && body == null
    {
      this.content, body, offset := content, null, 0;
    }

    /** The stored bytes from the offset on; a request may fail. */
    method GetObject() returns (b: Body?)
      requires Valid() && offset < |content|
      modifies this`requests
      ensures requests == old(requests) + [b != null] && (b != null ==> b.uses == 0)
      ensures b != null ==> fresh(b) && b.open && b.content == content && b.pos == offset
    {
      var found: bool := *;
      requests := requests + [found];
      if !found { return null; }
      b := new Body(content, offset);
    }

    /** Reads like a cursor on the stored bytes: it gives the bytes at the offset, and moves past them. */
    method Read(n: nat) returns (p: seq<Byte>, err: Error)
      requires Valid()
      modifies this, body
      ensures Valid() && (body == null || body == old(body) || fresh(body))
      ensures |p| <= n && offset == old(offset) + |p|
      ensures old(offset) < |content| ==> offset <= |content|
      ensures p == if old(offset) >= |content| then [] else content[old(offset)..offset]
      ensures old(offset) >= |content| ==> err == EOF
      ensures err == EOF ==> offset >= |content|
      ensures err == NoError || err == EOF || err == Failed
      ensures requests == old(requests) + if old(offset) < |content| && old(body) == null then [body != null] else []
      ensures old(offset) < |content| ==> err == if body == null then Failed else body.last
      ensures old(offset) < |content| && body != null ==>
                body.uses == (if old(body) == null then 0 else old(body.uses)) + 1
    {
      if offset >= |content| { return [], EOF; }
      if body == null {
        body := GetObject();
        if body == null { return [], Failed; }
      }
      p, err := body.Read(n);
      offset := offset + |p|;
    }

    /** What a seek asks for, with 64-bit arithmetic. */
    function Wanted(off: int, whence: Whence): int
      reads this
    {
      match whence
      case SeekStart => off
      case SeekCurrent => Wrap64(offset + off)
      case SeekEnd => Wrap64(|content| + off)
      case Unknown => -1
    }

    /** The position that a seek means, on unbounded integers. */
    function Exact(off: int, whence: Whence): int
      reads this
    {
      match whence
      case SeekStart => off
      case SeekCurrent => offset + off
      case SeekEnd => |content| + off
      case Unknown => -1
    }

    /** Moves the cursor, or reports an error and leaves it. A position that does not fit in 64 bits is an error. */
    method Seek(off: int, whence: Whence) returns (pos: int, err: Error)
      requires Valid() && IsInt64(off)
      modifies this, body
      ensures Valid() && (body == null || body == old(body))
      ensures if 0 <= old(Exact(off, whence)) <= MAX_INT64
              then err == NoError && pos == offset == old(Exact(off, whence))
              else err != NoError && offset == old(offset)
    {
      if whence == Unknown { return 0, InvalidWhence; }
      var newOffset := Wanted(off, whence);
      WrapIsSafe(if whence == SeekEnd then |content| else offset, off);
      if newOffset < 0 { return 0, NegativePosition; }
      if body != null && newOffset != offset {
        body.Close();
        body := null;
      }
      offset := newOffset;
      return offset, NoError;
    }
  }

  /**
   Reading from a position to the end, in any number of pieces: if the end is reached, the pieces put
   together are the stored bytes from that position on.
   */
  method ReadToEnd(f: S3File, start: int, pieces: seq<nat>) returns (bytes: seq<Byte>, complete: bool)
    requires f.Valid() && 0 <= start <= MAX_INT64
    modifies f, f.body
    ensures f.Valid()
    ensures |bytes| <= if start >= |f.content| then 0 else |f.content| - start
    ensures start < |f.content| ==> bytes == f.content[start..start + |bytes|]
    ensures complete ==> bytes == if start >= |f.content| then [] else f.content[start..]
  {
    var pos, err := f.Seek(start, SeekStart);
    bytes := [];
    for i := 0 to |pieces|
      invariant f.Valid() && f.offset == start + |bytes|
      invariant f.body == null || f.body == old(f.body) || fresh(f.body)
      invariant if start >= |f.content| then bytes == []
                else f.offset <= |f.content| && bytes == f.content[start..f.offset]
    {
      var p, e := f.Read(pieces[i]);
      bytes := bytes + p;
      if e == EOF { return bytes, true; }
      if e != NoError { return bytes, false; }
    }
    return bytes, false;
  }
}
