/** An abstract file system for the install procedure: a map from paths (sequences of segment
    names) to nodes. Directories are implicit: a path "exists" when it, or anything beneath it,
    is recorded. The primitive operations are those of fs-extra (`pathExists`, `move`, `remove`),
    Node's `fs.rename` and `fs.chmod`, and AdmZip's `extractAllTo(dir, true)`. Each one is a pure
    function on trees, and `Host` is the mutable file system the install procedure works on. */
module FileTree {
  import opened Wrappers

  type Path = seq<string>

  /** A file carries its contents and its permission bits; `Dir` is an (empty) directory. */
  datatype Node = File(data: string, mode: nat) | Dir

  type Tree = map<Path, Node>

  /** ENOENT, EEXIST, EINVAL, EXDEV, ENOTDIR, EISDIR and ENOTEMPTY. */
  datatype FsError =
    | NoSuchPath(path: Path)
    | DestinationExists(path: Path)
    | IntoItself(src: Path, dst: Path)
    | CrossDevice(src: Path, dst: Path)
    | NotADirectory(path: Path)
    | IsADirectory(path: Path)
    | NotEmpty(path: Path)

  /** Default permission bits of a newly written file (0o644). */
  const NewFileMode: nat := 420

  /** `q` is `p` or lies beneath it. */
  predicate Under(q: Path, p: Path) { p <= q }

  /** `pathExists(p)`: `p` is recorded, or something beneath it is. */
  predicate Exists(t: Tree, p: Path) { exists q :: q in t && Under(q, p) }

  /** Neither path lies beneath the other. */
  predicate Apart(p: Path, q: Path) { !Under(p, q) && !Under(q, p) }

  /** A file is recorded at `p`. */
  predicate IsFile(t: Tree, p: Path) { p in t && t[p].File? }

  /** `p` exists and is not a file: a recorded `Dir`, or a folder with entries beneath it. */
  predicate IsDir(t: Tree, p: Path) { Exists(t, p) && !IsFile(t, p) }

  /** Something is recorded strictly beneath `p`. */
  predicate HasEntries(t: Tree, p: Path) { exists q :: q in t && Under(q, p) && q != p }

  /** The folder `p` would be created in exists and is a directory. */
  predicate ParentIsDir(t: Tree, p: Path) { |p| > 0 && IsDir(t, p[..|p| - 1]) }

  /** What is at `dst` may be replaced by what is at `src`: a file replaces a file or nothing;
      a directory replaces nothing or an empty directory. */
  predicate Replaceable(t: Tree, src: Path, dst: Path)
  {
    if IsFile(t, src) then !IsDir(t, dst) else !IsFile(t, dst) && !HasEntries(t, dst)
  }

  lemma PrefixesCompare(q: Path, a: Path, b: Path)
    ensures Under(q, a) && Under(q, b) ==> Under(a, b) || Under(b, a)
  {
  }

  lemma UnderTrans(q: Path, p: Path, o: Path)
    ensures Under(q, p) && Under(p, o) ==> Under(q, o)
  {
  }

  lemma Rejoin(q: Path, p: Path)
    requires Under(q, p)
    ensures p + q[|p|..] == q
  {
  }

  /** The entries beneath `p`, keyed relative to `p`. */
  function Subtree(t: Tree, p: Path): (r: Tree)
    ensures forall k :: k in r <==> p + k in t
    ensures forall k :: k in r ==> r[k] == t[p + k]
  {
    var ks := set q | q in t && Under(q, p) :: q[|p|..];
    assert forall q :: q in t && Under(q, p) ==> p + q[|p|..] in t by {
      forall q | q in t && Under(q, p) ensures p + q[|p|..] in t { Rejoin(q, p); }
    }
    assert forall k :: p + k in t ==> k in ks by {
      forall k | p + k in t ensures k in ks { assert (p + k)[|p|..] == k; }
    }
    map k | k in ks :: t[p + k]
  }

  /** `remove(p)`: `p` and everything beneath it are gone, everything else is untouched. */
  function Removed(t: Tree, p: Path): (r: Tree)
    ensures forall q :: q in r <==> q in t && !Under(q, p)
    ensures forall q :: q in r ==> r[q] == t[q]
    ensures !Exists(r, p)
  {
    map q | q in t && !Under(q, p) :: t[q]
  }

  /** `extractAllTo(dir, true)`: every archive entry `k` is written at `dir + k`, replacing what
      was there; every other entry is untouched. */
  function Grafted(t: Tree, dir: Path, entries: Tree): (r: Tree)
    ensures forall k :: k in entries ==> dir + k in r && r[dir + k] == entries[k]
    ensures forall q :: q in t && !(Under(q, dir) && q[|dir|..] in entries) ==> q in r && r[q] == t[q]
    ensures forall q :: q in r ==> q in t || (Under(q, dir) && q[|dir|..] in entries)
  {
    assert forall k :: k in entries ==> (dir + k)[|dir|..] == k;
    var keys := t.Keys + set k | k in entries :: dir + k;
    map q | q in keys :: if Under(q, dir) && q[|dir|..] in entries then entries[q[|dir|..]] else t[q]
  }

  /** The tree after moving the subtree at `src` to `dst`, when nothing is at `dst`: the entries
      beneath `src` reappear beneath `dst` with the same relative keys and nodes, and nothing
      else changes. */
  function Moved(t: Tree, src: Path, dst: Path): (r: Tree)
    requires !Exists(t, dst) && !Under(dst, src)
    ensures forall k :: src + k in t ==> dst + k in r && r[dst + k] == t[src + k]
    ensures forall q :: q in t && !Under(q, src) ==> q in r && r[q] == t[q]
    ensures forall q :: q in r ==> (q in t && !Under(q, src)) || (Under(q, dst) && src + q[|dst|..] in t)
    ensures !Exists(r, src)
  {
    var r := Grafted(Removed(t, src), dst, Subtree(t, src));
    assert forall q :: q in t && !Under(q, src) ==> !Under(q, dst);
    assert !Exists(r, src) by {
      forall q | q in r ensures !Under(q, src) {
        if Under(q, dst) && q[|dst|..] in Subtree(t, src) {
          // src and dst both prefix q, and dst is not beneath src, so src would be beneath
          // dst and `src + k`, which is recorded, would lie beneath dst
          PrefixesCompare(q, src, dst);
          UnderTrans(src + q[|dst|..], src, dst);
        }
      }
    }
    r
  }

  /** fs-extra `move(src, dst)` without overwrite: fails when `src` is missing, when `dst` lies
      beneath `src`, or when `dst` already exists; otherwise the subtree moves. */
  function MoveResult(t: Tree, src: Path, dst: Path): (r: Result<Tree, FsError>)
    ensures r.Ok? <==> Exists(t, src) && !Under(dst, src) && !Exists(t, dst)
    ensures r.Ok? ==> r.value == Moved(t, src, dst)
    ensures !Exists(t, src) ==> r == Err(NoSuchPath(src))
    ensures Exists(t, src) && !Under(dst, src) && Exists(t, dst) ==> r == Err(DestinationExists(dst))
  {
    if !Exists(t, src) then Err(NoSuchPath(src))
    else if Under(dst, src) then Err(IntoItself(src, dst))
    else if Exists(t, dst) then Err(DestinationExists(dst))
    else Ok(Moved(t, src, dst))
  }

  /** Moving a subtree away and back restores the tree exactly, when the two places are apart. */
  lemma MoveBack(t: Tree, src: Path, dst: Path)
    requires Exists(t, src) && !Exists(t, dst) && Apart(src, dst)
    ensures MoveResult(t, src, dst) == Ok(Moved(t, src, dst))
    ensures MoveResult(Moved(t, src, dst), dst, src) == Ok(t)
  {
    MovedArrives(t, src, dst);
    MoveBackKeeps(t, src, dst);
    MoveBackAdds(t, src, dst);
    MoveBackRestores(t, src, dst);
  }

  lemma MovedArrives(t: Tree, src: Path, dst: Path)
    requires Exists(t, src) && !Exists(t, dst) && !Under(dst, src)
    ensures Exists(Moved(t, src, dst), dst)
  {
    var w :| w in t && Under(w, src);
    Rejoin(w, src);
    assert dst + w[|src|..] in Moved(t, src, dst);
  }

  lemma MoveBackRestores(t: Tree, src: Path, dst: Path)
    requires !Exists(t, dst) && Apart(src, dst)
    ensures !Exists(Moved(t, src, dst), src)
    ensures Moved(Moved(t, src, dst), dst, src) == t
  {
    MoveBackKeeps(t, src, dst);
    MoveBackAdds(t, src, dst);
    SameEntries(t, Moved(Moved(t, src, dst), dst, src));
  }

  /** Two trees recording the same nodes at the same paths are equal. */
  lemma SameEntries(a: Tree, b: Tree)
    requires forall q :: q in a ==> q in b && b[q] == a[q]
    requires forall q :: q in b ==> q in a
    ensures a == b
  {
    assert a.Keys == b.Keys;
  }

  lemma MoveBackKeeps(t: Tree, src: Path, dst: Path)
    requires !Exists(t, dst) && Apart(src, dst)
    ensures !Exists(Moved(t, src, dst), src)
    ensures forall q :: q in t ==>
      (q in Moved(Moved(t, src, dst), dst, src) && Moved(Moved(t, src, dst), dst, src)[q] == t[q])
  {
    var m := Moved(t, src, dst);
    var back := Moved(m, dst, src);
    forall q | q in t ensures q in back && back[q] == t[q] {
      if Under(q, src) {
        Rejoin(q, src);
        var k := q[|src|..];
        assert src + k in t;
        assert dst + k in m;
      } else {
        assert !Under(q, dst);
      }
    }
  }

  lemma MoveBackAdds(t: Tree, src: Path, dst: Path)
    requires !Exists(t, dst) && Apart(src, dst)
    ensures forall q :: q in Moved(Moved(t, src, dst), dst, src) ==> q in t
  {
    var m := Moved(t, src, dst);
    var back := Moved(m, dst, src);
    forall q | q in back ensures q in t {
      if Under(q, src) {
        Rejoin(q, src);
        var k := q[|src|..];
        assert (dst + k)[|dst|..] == k;
      }
    }
  }

  /** A path exists exactly when something is recorded beneath it. */
  lemma ExistsIffSubtree(t: Tree, p: Path)
    ensures Exists(t, p) <==> Subtree(t, p) != map[]
  {
    if Exists(t, p) {
      var q :| q in t && Under(q, p);
      Rejoin(q, p);
      assert q[|p|..] in Subtree(t, p);
    }
    if Subtree(t, p) != map[] {
      var k :| k in Subtree(t, p);
      assert Under(p + k, p);
    }
  }

  /** Whatever lay beneath a path `p` inside the moved subtree now lies, unchanged, beneath the
      corresponding path inside `dst`. */
  lemma MovedSubtreeAt(t: Tree, src: Path, dst: Path, p: Path)
    requires !Exists(t, dst) && !Under(dst, src) && Under(p, src)
    ensures Subtree(Moved(t, src, dst), dst + p[|src|..]) == Subtree(t, p)
  {
    var r := Moved(t, src, dst);
    var rel := p[|src|..];
    Rejoin(p, src);
    var a := Subtree(r, dst + rel);
    var b := Subtree(t, p);
    forall k | k in b ensures k in a && a[k] == b[k] {
      Regroup(src, rel, k);
      Regroup(dst, rel, k);
    }
    forall k | k in a ensures k in b {
      Regroup(src, rel, k);
      Regroup(dst, rel, k);
      MovedLanding(t, src, dst, rel + k);
    }
    assert a.Keys == b.Keys;
  }

  lemma Regroup(a: Path, b: Path, c: Path)
    ensures a + (b + c) == a + b + c
    ensures (a + (b + c))[|a|..] == b + c
  {
  }

  /** An entry of the moved tree beneath `dst` came from the matching place beneath `src`. */
  lemma MovedLanding(t: Tree, src: Path, dst: Path, k: Path)
    requires !Exists(t, dst) && !Under(dst, src)
    ensures dst + k in Moved(t, src, dst) ==> src + k in t
  {
    var q := dst + k;
    assert q[|dst|..] == k;
    if q in t {
      assert Under(q, dst);
    }
  }

  /** A subtree apart from both ends of a move is not touched by it. */
  lemma MovedSubtreeApart(t: Tree, src: Path, dst: Path, p: Path)
    requires !Exists(t, dst) && !Under(dst, src) && Apart(p, src) && Apart(p, dst)
    ensures Subtree(Moved(t, src, dst), p) == Subtree(t, p)
  {
    MovedKeepsApart(t, src, dst, p);
    MovedAddsNothingApart(t, src, dst, p);
    assert Subtree(Moved(t, src, dst), p).Keys == Subtree(t, p).Keys;
  }

  lemma MovedKeepsApart(t: Tree, src: Path, dst: Path, p: Path)
    requires !Exists(t, dst) && !Under(dst, src) && Apart(p, src)
    ensures forall k :: p + k in t ==> p + k in Moved(t, src, dst) && Moved(t, src, dst)[p + k] == t[p + k]
  {
    forall k | p + k in t ensures p + k in Moved(t, src, dst) && Moved(t, src, dst)[p + k] == t[p + k] {
      PrefixesCompare(p + k, p, src);
    }
  }

  lemma MovedAddsNothingApart(t: Tree, src: Path, dst: Path, p: Path)
    requires !Exists(t, dst) && !Under(dst, src) && Apart(p, dst)
    ensures forall k :: p + k in Moved(t, src, dst) ==> p + k in t
  {
    forall k | p + k in Moved(t, src, dst) ensures p + k in t {
      PrefixesCompare(p + k, p, dst);
    }
  }

  /** Extracting an archive none of whose entries lands beneath `p` leaves `p`'s subtree as it
      was. */
  lemma GraftedSubtreeApart(t: Tree, dir: Path, entries: Tree, p: Path)
    requires forall k :: k in entries ==> !Under(dir + k, p)
    ensures Subtree(Grafted(t, dir, entries), p) == Subtree(t, p)
  {
    var r := Grafted(t, dir, entries);
    var a := Subtree(r, p);
    var b := Subtree(t, p);
    forall k | k in b ensures k in a && a[k] == b[k] {
      if Under(p + k, dir) && (p + k)[|dir|..] in entries {
        Rejoin(p + k, dir);
      }
    }
    forall k | k in a ensures k in b {
      if Under(p + k, dir) && (p + k)[|dir|..] in entries {
        Rejoin(p + k, dir);
      }
    }
    assert a.Keys == b.Keys;
  }

  /** Removing a path apart from `p` leaves `p`'s subtree as it was. */
  lemma RemovedSubtreeApart(t: Tree, gone: Path, p: Path)
    requires Apart(p, gone)
    ensures Subtree(Removed(t, gone), p) == Subtree(t, p)
  {
    var a := Subtree(Removed(t, gone), p);
    var b := Subtree(t, p);
    forall k | k in b ensures k in a {
      PrefixesCompare(p + k, p, gone);
    }
    assert a.Keys == b.Keys;
  }

  /** Something beneath `p + c` is beneath `p`. */
  lemma ExistsBelow(t: Tree, p: Path, c: Path)
    ensures Exists(t, p + c) ==> Exists(t, p)
  {
    if Exists(t, p + c) {
      var q :| q in t && Under(q, p + c);
      UnderTrans(q, p + c, p);
    }
  }

  lemma NothingBelow(t: Tree, p: Path, c: Path)
    requires !Exists(t, p)
    ensures !Exists(t, p + c) && Subtree(t, p + c) == map[]
  {
    ExistsBelow(t, p, c);
    ExistsIffSubtree(t, p + c);
  }

  /** Extending two apart paths keeps them apart. */
  lemma ApartExtend(a: Path, b: Path, x: Path, y: Path)
    requires Apart(a, b)
    ensures Apart(a + x, b + y)
  {
    PrefixesCompare(a + x, a, b + y);
    PrefixesCompare(b + y, b, a + x);
    UnderTrans(a + x, b + y, b);
    UnderTrans(b + y, a + x, a);
    PrefixesCompare(a + x, a, b);
    PrefixesCompare(b + y, b, a);
  }

  /** Two different entries of one folder are apart. */
  lemma SiblingsApart(p: Path, x: string, y: string)
    requires x != y
    ensures Apart(p + [x], p + [y])
  {
    assert (p + [x])[|p|] != (p + [y])[|p|];
  }

  /** A path apart from a folder is apart from everything inside it. */
  lemma ApartBelow(a: Path, d: Path, u: Path)
    requires Apart(a, d) && Under(u, d)
    ensures Apart(a, u)
  {
    UnderTrans(a, u, d);
    PrefixesCompare(u, a, d);
  }

  /** `fs.rename(src, dst)`, on one file system when `sameDevice`. Renaming a path to itself
      succeeds and changes nothing. Otherwise it fails when `src` is missing (ENOENT), when one
      path lies beneath the other (EINVAL), when the folder of `dst` is missing (ENOENT) or is a
      file (ENOTDIR), when the two paths are on different file systems (EXDEV), when a file
      would replace a directory (EISDIR), or when a directory would replace a file (ENOTDIR)
      or a non-empty directory (ENOTEMPTY). On success whatever was at `dst` is replaced by the
      subtree from `src`. */
  function RenameResult(t: Tree, src: Path, dst: Path, sameDevice: bool): (r: Result<Tree, FsError>)
    ensures r.Ok? <==>
      Exists(t, src) && (src == dst || (Apart(src, dst) && ParentIsDir(t, dst) && sameDevice && Replaceable(t, src, dst)))
    ensures !Exists(t, src) ==> r == Err(NoSuchPath(src))
    ensures Exists(t, src) && src != dst && !Apart(src, dst) ==> r == Err(IntoItself(src, dst))
    ensures Exists(t, src) && Apart(src, dst) && !ParentIsDir(t, dst) ==>
      r == Err(if IsFile(t, dst[..|dst| - 1]) then NotADirectory(dst[..|dst| - 1]) else NoSuchPath(dst[..|dst| - 1]))
    ensures Exists(t, src) && Apart(src, dst) && ParentIsDir(t, dst) && !sameDevice ==> r == Err(CrossDevice(src, dst))
    ensures Exists(t, src) && Apart(src, dst) && ParentIsDir(t, dst) && sameDevice && !Replaceable(t, src, dst) ==>
      r == Err(if IsFile(t, src) then IsADirectory(dst) else if IsFile(t, dst) then NotADirectory(dst) else NotEmpty(dst))
    ensures r.Ok? && src != dst ==>
      && (forall k :: src + k in t ==> dst + k in r.value && r.value[dst + k] == t[src + k])
      && (forall q :: q in t && !Under(q, src) && !Under(q, dst) ==> q in r.value && r.value[q] == t[q])
      && !Exists(r.value, src)
    ensures src == dst && Exists(t, src) ==> r == Ok(t)
  {
    if !Exists(t, src) then Err(NoSuchPath(src))
    else if src == dst then Ok(t)
    else if !Apart(src, dst) then Err(IntoItself(src, dst))
    else if !ParentIsDir(t, dst) then
      var parent := dst[..|dst| - 1];
      Err(if IsFile(t, parent) then NotADirectory(parent) else NoSuchPath(parent))
    else if !sameDevice then Err(CrossDevice(src, dst))
    else if IsFile(t, src) && IsDir(t, dst) then Err(IsADirectory(dst))
    else if !IsFile(t, src) && IsFile(t, dst) then Err(NotADirectory(dst))
    else if !IsFile(t, src) && HasEntries(t, dst) then Err(NotEmpty(dst))
    else
      var cleared := Removed(t, dst);
      assert forall k :: src + k in t ==> src + k in cleared by {
        forall k | src + k in t ensures src + k in cleared {
          PrefixesCompare(src + k, src, dst);
        }
      }
      Ok(Moved(cleared, src, dst))
  }

  /** `fs.chmod(p, mode)`: fails when `p` is missing; a file takes the new mode. Directory
      permissions are not tracked. */
  function ChmodResult(t: Tree, p: Path, mode: nat): (r: Result<Tree, FsError>)
    ensures r.Err? <==> !Exists(t, p)
    ensures r.Ok? && p in t && t[p].File? ==> r.value == t[p := File(t[p].data, mode)]
    ensures r.Ok? && !(p in t && t[p].File?) ==> r.value == t
  {
    if !Exists(t, p) then Err(NoSuchPath(p))
    else if p in t && t[p].File? then Ok(t[p := File(t[p].data, mode)])
    else Ok(t)
  }

  /** `new AdmZip(archive).extractAllTo(dir, true)`: the archive must be a file; its entries are
      the `entries` given (reading the zip format is not modelled). */
  function ExtractResult(t: Tree, archive: Path, entries: Tree, dir: Path): (r: Result<Tree, FsError>)
    ensures r.Err? <==> !(archive in t && t[archive].File?)
    ensures r.Ok? ==> r.value == Grafted(t, dir, entries)
  {
    if archive in t && t[archive].File? then Ok(Grafted(t, dir, entries)) else Err(NoSuchPath(archive))
  }

  /** The file system the install procedure mutates. */
  class Host {
    var nodes: Tree

    constructor (initial: Tree)
      ensures nodes == initial
    {
      nodes := initial;
    }

    method PathExists(p: Path) returns (b: bool)
      ensures b <==> Exists(nodes, p)
    {
      b := exists q :: q in nodes && Under(q, p);
    }

    /** Applies one primitive's outcome: the tree changes only when it succeeds. */
    method Apply(res: Result<Tree, FsError>) returns (r: Outcome<FsError>)
      modifies this
      ensures res.Ok? ==> r == Pass && nodes == res.value
      ensures res.Err? ==> r == Fail(res.error) && nodes == old(nodes)
    {
      if res.Ok? {
        nodes := res.value;
        r := Pass;
      } else {
        r := Fail(res.error);
      }
    }

    method Move(src: Path, dst: Path) returns (r: Outcome<FsError>)
      modifies this
      ensures var res := MoveResult(old(nodes), src, dst);
        && (res.Ok? ==> r == Pass && nodes == res.value)
        && (res.Err? ==> r == Fail(res.error) && nodes == old(nodes))
    {
      r := Apply(MoveResult(nodes, src, dst));
    }

    method Remove(p: Path)
      modifies this
      ensures nodes == Removed(old(nodes), p)
    {
      nodes := Removed(nodes, p);
    }

    method Rename(src: Path, dst: Path, sameDevice: bool) returns (r: Outcome<FsError>)
      modifies this
      ensures var res := RenameResult(old(nodes), src, dst, sameDevice);
        && (res.Ok? ==> r == Pass && nodes == res.value)
        && (res.Err? ==> r == Fail(res.error) && nodes == old(nodes))
    {
      r := Apply(RenameResult(nodes, src, dst, sameDevice));
    }

    method Chmod(p: Path, mode: nat) returns (r: Outcome<FsError>)
      modifies this
      ensures var res := ChmodResult(old(nodes), p, mode);
        && (res.Ok? ==> r == Pass && nodes == res.value)
        && (res.Err? ==> r == Fail(res.error) && nodes == old(nodes))
    {
      r := Apply(ChmodResult(nodes, p, mode));
    }

    method Extract(archive: Path, entries: Tree, dir: Path) returns (r: Outcome<FsError>)
      modifies this
      ensures var res := ExtractResult(old(nodes), archive, entries, dir);
        && (res.Ok? ==> r == Pass && nodes == res.value)
        && (res.Err? ==> r == Fail(res.error) && nodes == old(nodes))
    {
      r := Apply(ExtractResult(nodes, archive, entries, dir));
    }

    /** A download saves a new file at `p`. */
    method WriteFile(p: Path, data: string)
      modifies this
      ensures nodes == old(nodes)[p := File(data, NewFileMode)]
    {
      nodes := nodes[p := File(data, NewFileMode)];
    }
  }
}
