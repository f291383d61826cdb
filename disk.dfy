/**
 * The filesystem as the repair sees it: the set of paths that exist, and the
 * three operations the repair performs on whole directory trees. Whether an
 * operation succeeds is decided outside the model (an `FsOutcome`); these
 * functions give the state after a successful one.
 */
module FileSystem {
  import opened Wrappers
  import opened GamePaths

  type Disk = set<Path>

  /** Every ancestor of an existing path exists. */
  ghost predicate IsTree(disk: Disk)
  {
    forall p, k :: p in disk && 0 < k <= |p| ==> p[..k] in disk
  }

  /** A Node.js filesystem error: its `code` (e.g. `EBUSY`), when it has one, and its `message`. */
  datatype FsError = FsError(code: Option<string>, message: string)

  /** How one filesystem call ends. */
  datatype FsOutcome = Ok | Fail(error: FsError)

  /** `fs.remove(dir)`: `dir` and everything below it is gone. */
  function RemoveTree(disk: Disk, dir: Path): (r: Disk)
    ensures forall p :: p in r <==> p in disk && !Under(dir, p)
  {
    set p | p in disk && !Under(dir, p)
  }

  /** The non-empty prefixes of `dir`: `dir` and its ancestors. */
  function Ancestors(dir: Path): (r: set<Path>)
    ensures |dir| > 0 ==> dir in r
    ensures forall p :: p in r ==> |p| <= |dir| && Under(p, dir)
  {
    assert |dir| > 0 ==> dir[..|dir|] == dir;
    set k | 1 <= k <= |dir| :: dir[..k]
  }

  /** `fs.ensureDir(dir)`: `dir` and its ancestors exist, nothing else changes. */
  function EnsureDir(disk: Disk, dir: Path): (r: Disk)
    ensures disk <= r
    ensures |dir| > 0 ==> dir in r
    ensures forall p :: p in r && p !in disk ==> |p| <= |dir| && Under(p, dir)
  {
    disk + Ancestors(dir)
  }

  /** `src + rest` moved to `dst + rest`. */
  function Relocate(src: Path, dst: Path, p: Path): Path
    requires Under(src, p)
  {
    dst + p[|src|..]
  }

  /**
   * `fs.move(src, dst, { overwrite: true })`: whatever was at `dst` is
   * replaced, and the tree at `src` now sits at `dst`.
   */
  function MoveTree(disk: Disk, src: Path, dst: Path): (r: Disk)
    requires !Under(src, dst) && !Under(dst, src)
    ensures forall p :: p in disk && !Under(src, p) && !Under(dst, p) ==> p in r
    ensures forall p :: p in disk && Under(src, p) ==> Relocate(src, dst, p) in r
    ensures forall p :: p in r ==> !Under(src, p)
    ensures forall p :: p in r ==>
      (p in disk && !Under(src, p) && !Under(dst, p)) || (Under(dst, p) && src + p[|dst|..] in disk)
  {
    var kept := set p | p in disk && !Under(src, p) && !Under(dst, p);
    var moved := set p | p in disk && Under(src, p) :: Relocate(src, dst, p);
    forall q | q in moved
      ensures !Under(src, q) && Under(dst, q)
    {
      var p :| p in disk && Under(src, p) && q == Relocate(src, dst, p);
      assert q[..|dst|] == dst;
    }
    forall q | q in moved
      ensures src + q[|dst|..] in disk
    {
      var p :| p in disk && Under(src, p) && q == Relocate(src, dst, p);
      assert q[|dst|..] == p[|src|..];
      assert src + p[|src|..] == p;
    }
    kept + moved
  }

  lemma RemoveTreeKeepsTree(disk: Disk, dir: Path)
    requires IsTree(disk)
    ensures IsTree(RemoveTree(disk, dir))
  {
    var r := RemoveTree(disk, dir);
    forall p, k | p in r && 0 < k <= |p|
      ensures p[..k] in r
    {
      UnderPrefix(dir, p, k);
    }
  }

  lemma EnsureDirKeepsTree(disk: Disk, dir: Path)
    requires IsTree(disk)
    ensures IsTree(EnsureDir(disk, dir))
  {
    var r := EnsureDir(disk, dir);
    forall p, k | p in r && 0 < k <= |p|
      ensures p[..k] in r
    {
      if p !in disk {
        var j :| 1 <= j <= |dir| && p == dir[..j];
        assert p[..k] == dir[..k];
      }
    }
  }

  /** In a tree, nothing lies under a directory that is absent. */
  lemma AbsentDirHasNothingUnder(disk: Disk, dir: Path)
    requires IsTree(disk) && |dir| > 0 && dir !in disk
    ensures forall p :: p in disk ==> !Under(dir, p)
  {
    forall p | p in disk
      ensures !Under(dir, p)
    {
      if |dir| <= |p| {
        assert p[..|dir|] in disk;
      }
    }
  }

  /** What lies under `x` up to its `k`-th component lies under `x` in full. */
  lemma UnderPrefix(x: Path, q: Path, k: nat)
    requires k <= |q|
    ensures Under(x, q[..k]) ==> Under(x, q)
  {
    if |x| <= k {
      assert q[..k][..|x|] == q[..|x|];
    }
  }

  /** A prefix of `x + y` reaching into `y` splits into `x` and a prefix of `y`. */
  lemma PrefixOfConcat(x: Path, y: Path, n: nat)
    requires n <= |y|
    ensures (x + y)[..|x| + n][..|x|] == x
    ensures (x + y)[..|x| + n][|x|..] == y[..n]
  {
  }

  /** Ancestors of a moved path are present after the move. */
  lemma MovedAncestorPresent(disk: Disk, src: Path, dst: Path, q: Path, k: nat)
    requires IsTree(disk)
    requires !Under(src, dst) && !Under(dst, src)
    requires |src| > 0 && |dst| > 0 && dst[..|dst| - 1] in disk
    requires Under(dst, q) && src + q[|dst|..] in disk && 0 < k <= |q|
    ensures q[..k] in MoveTree(disk, src, dst)
  {
    var a := q[..k];
    if k < |dst| {
      assert a == dst[..|dst| - 1][..k];
      assert a in disk;
      assert a == dst[..k];
      UnderPrefix(src, dst, k);
    } else {
      var p := src + q[|dst|..];
      var b := p[..|src| + (k - |dst|)];
      assert b in disk;
      PrefixOfConcat(src, q[|dst|..], k - |dst|);
      assert q[|dst|..][..k - |dst|] == q[|dst|..k];
      assert a == q[..|dst|] + q[|dst|..k];
      assert Relocate(src, dst, b) == a;
    }
  }

  /** Ancestors of a path the move leaves alone are left alone too. */
  lemma KeptAncestorPresent(disk: Disk, src: Path, dst: Path, q: Path, k: nat)
    requires IsTree(disk)
    requires !Under(src, dst) && !Under(dst, src)
    requires q in disk && !Under(src, q) && !Under(dst, q) && 0 < k <= |q|
    ensures q[..k] in MoveTree(disk, src, dst)
  {
    var a := q[..k];
    assert a in disk;
    UnderPrefix(src, q, k);
    UnderPrefix(dst, q, k);
  }

  /** Moving a tree next to an existing parent directory keeps every ancestor present. */
  lemma MoveTreeKeepsTree(disk: Disk, src: Path, dst: Path)
    requires IsTree(disk)
    requires !Under(src, dst) && !Under(dst, src)
    requires |src| > 0 && |dst| > 0 && dst[..|dst| - 1] in disk
    ensures IsTree(MoveTree(disk, src, dst))
  {
    var r := MoveTree(disk, src, dst);
    forall q, k | q in r && 0 < k <= |q|
      ensures q[..k] in r
    {
      if Under(dst, q) {
        MovedAncestorPresent(disk, src, dst, q, k);
      } else {
        KeptAncestorPresent(disk, src, dst, q, k);
      }
    }
  }
}
