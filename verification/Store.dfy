/** Values shared by the other modules. */
module Values {
  datatype Option<+T> = None | Some(value: T)

  type Byte = x: int | 0 <= x < 256

  datatype Result<+T> = Ok(value: T) | Err(error: string)

  lemma LastApart<T>(s: seq<T>)
    requires s != []
    ensures s[..|s| - 1] + [s[|s| - 1]] == s
  {
  }

  predicate HasPrefix(s: string, prefix: string) {
    prefix <= s
  }
}

/** An object's files, and the storage operations that update plans perform on them. */
module Store {
  import opened Values

  type Path = string
  type Bytes = string
  type Files = map<Path, Bytes>

  /** Paths are relative to the object root, which is named ".". */
  datatype Op = Write(path: Path, data: Bytes) | Remove(path: Path) | RemoveAll(dir: Path)

  /**
   Whether a failing operation may leave its path in another state: torn writes leave anything, torn removals remove.
   */
  datatype Faults = Faults(tornRun: bool, tornRevert: bool)

  function Get(f: Files, p: Path): Option<Bytes> {
    if p in f then Some(f[p]) else None
  }

  predicate Under(dir: Path, p: Path) {
    dir == "." || p == dir || HasPrefix(p, dir + "/")
  }

  predicate Touches(op: Op, p: Path) {
    if op.RemoveAll? then Under(op.dir, p) else p == op.path
  }

  /** Removing a file that does not exist counts as success. */
  function Do(op: Op, f: Files): Files {
    match op
    case Write(p, b) => f[p := b]
    case Remove(p) => f - {p}
    case RemoveAll(d) => map p | p in f && !Under(d, p) :: f[p]
  }

  function DoAll(ops: seq<Op>, f: Files): Files {
    if ops == [] then f else Do(ops[|ops| - 1], DoAll(ops[..|ops| - 1], f))
  }

  /** What a sequence of operations leaves at p; None when it does not touch p. */
  function Effect(ops: seq<Op>, p: Path): Option<Option<Bytes>> {
    if ops == [] then None
    else
      var last := ops[|ops| - 1];
      if Touches(last, p) then Some(if last.Write? then Some(last.data) else None)
      else Effect(ops[..|ops| - 1], p)
  }

  /** What a torn operation may leave: a write anything at its path, a removal any of its paths removed. */
  ghost predicate MayLeave(op: Op, f: Files, f': Files) {
    forall p :: (!Touches(op, p) ==> Get(f', p) == Get(f, p))
             && (Touches(op, p) && !op.Write? ==> Get(f', p) == Get(f, p) || Get(f', p) == None)
  }

  /** The operations stop at number k, which fails. */
  ghost predicate FailsAt(ops: seq<Op>, k: nat, f: Files, f': Files, torn: bool)
    requires k < |ops|
  {
    var g := DoAll(ops[..k], f);
    if torn then MayLeave(ops[k], g, f') else f' == g
  }

  ghost predicate Fails(ops: seq<Op>, f: Files, f': Files, torn: bool) {
    exists k: nat :: k < |ops| && FailsAt(ops, k, f, f', torn)
  }

  lemma {:induction false} DoAllAt(ops: seq<Op>, f: Files, p: Path)
    ensures Get(DoAll(ops, f), p) == match Effect(ops, p) case Some(v) => v case None => Get(f, p)
  {
    if ops != [] {
      DoAllAt(ops[..|ops| - 1], f, p);
    }
  }

  lemma {:induction false} EffectOfPrefix(ops: seq<Op>, k: nat, p: Path)
    requires k < |ops| && Effect(ops, p) == None
    ensures Effect(ops[..k], p) == None && !Touches(ops[k], p)
  {
    var init := ops[..|ops| - 1];
    if k < |ops| - 1 {
      assert init[..k] == ops[..k];
      EffectOfPrefix(init, k, p);
    }
  }

  /** However it fails, a sequence of operations stays within the paths it touches. */
  lemma FailureIsLocal(ops: seq<Op>, f: Files, f': Files, torn: bool, p: Path)
    requires Fails(ops, f, f', torn) && Effect(ops, p) == None
    ensures Get(f', p) == Get(f, p)
  {
    var k: nat :| k < |ops| && FailsAt(ops, k, f, f', torn);
    EffectOfPrefix(ops, k, p);
    DoAllAt(ops[..k], f, p);
  }

  /** A single all-or-nothing operation that fails changes nothing. */
  lemma AtomicFailure(ops: seq<Op>, f: Files, f': Files)
    requires |ops| <= 1 && Fails(ops, f, f', false)
    ensures f' == f
  {
    assert ops[..0] == [];
  }

  lemma SameFiles(f: Files, g: Files)
    requires forall p :: Get(f, p) == Get(g, p)
    ensures f == g
  {
    forall p ensures p in f <==> p in g {
      assert Get(f, p) == Get(g, p);
    }
    forall p | p in f ensures f[p] == g[p] {
      assert Get(f, p) == Get(g, p);
    }
  }
}
