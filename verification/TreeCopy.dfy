/** Recursive copy in a symlink-free file tree, where every system call may fail. */
module TreeCopy {
  import opened Wrappers

  /** A path as its components below the root. */
  type Path = seq<string>

  datatype Node = File(content: Bytes) | Dir

  type Tree = map<Path, Node>

  predicate InDirectory(fs: Tree, p: Path) {
    p == [] || (p[..|p| - 1] in fs && fs[p[..|p| - 1]] == Dir)
  }

  predicate WellFormed(fs: Tree) {
    forall p {:trigger InDirectory(fs, p)} :: p in fs ==> InDirectory(fs, p)
  }

  /** The two trees have the same names and contents. */
  ghost predicate SameTree(fs: Tree, src: Path, dst: Path) {
    forall r: Path {:trigger src + r} {:trigger dst + r} ::
      (src + r in fs <==> dst + r in fs) && (src + r in fs ==> fs[src + r] == fs[dst + r])
  }

  ghost predicate SameAt(a: Tree, b: Tree, p: Path) {
    (p in a <==> p in b) && (p in a ==> a[p] == b[p])
  }

  ghost predicate UnchangedOutside(a: Tree, b: Tree, dst: Path) {
    forall p: Path :: !(dst <= p) ==> SameAt(a, b, p)
  }

  /** Nothing exists at or below `p`. */
  ghost predicate Vacant(fs: Tree, p: Path) {
    forall q :: q in fs ==> !(p <= q)
  }

  predicate Apart(a: Path, b: Path) {
    !(a <= b) && !(b <= a)
  }

  function Subtree(fs: Tree, p: Path): set<Path> {
    set q | q in fs && p <= q
  }

  /** `os.listdir`. */
  function Children(fs: Tree, p: Path): set<string> {
    set q | q in fs && |q| == |p| + 1 && p <= q :: q[|p|]
  }

  lemma {:induction false} AncestorsExist(fs: Tree, p: Path, q: Path)
    requires WellFormed(fs) && q in fs && p <= q
    ensures p in fs && (p != q ==> fs[p] == Dir)
    decreases |q|
  {
    if p != q {
      assert p <= q[..|q| - 1] && InDirectory(fs, q);
      AncestorsExist(fs, p, q[..|q| - 1]);
    }
  }

  lemma MissingIsVacant(fs: Tree, p: Path)
    requires WellFormed(fs) && p !in fs
    ensures Vacant(fs, p)
  {
    forall q | q in fs && p <= q
      ensures false
    {
      AncestorsExist(fs, p, q);
    }
  }

  lemma LeafAdded(fs: Tree, p: Path, node: Node)
    requires WellFormed(fs) && p !in fs && InDirectory(fs, p)
    ensures WellFormed(fs[p := node])
  {
    var fs' := fs[p := node];
    forall q | q in fs'
      ensures InDirectory(fs', q)
    {
      assert q != p ==> InDirectory(fs, q);
    }
  }

  lemma ChildIs(fs: Tree, p: Path, n: string)
    ensures n in Children(fs, p) <==> p + [n] in fs
  {
    assert (p + [n])[|p|] == n && p <= p + [n];
    if n in Children(fs, p) {
      var q :| q in fs && |q| == |p| + 1 && p <= q && q[|p|] == n;
      assert q == p + [n];
    }
  }

  lemma ApartBelow(a: Path, b: Path, r: Path, s: Path)
    requires Apart(a, b)
    ensures !(b <= a + r) && Apart(a + r, b + s)
  {
    var k :| 0 <= k < |a| && k < |b| && a[k] != b[k];
    assert (a + r)[k] != (b + s)[k];
    assert (a + r)[k] != b[k];
  }

  /** The outcome of a system call or permission test; it may be refused unless the system is reliable. */
  method Attempt(reliable: bool) returns (done: bool)
    ensures reliable ==> done
  {
    done := *;
    done := done || reliable;
  }

  class FileStore {
    var fs: Tree

    constructor (fs: Tree)
      ensures this.fs == fs
    {
      this.fs := fs;
    }

    /** `copyfile`, `copymode` and the change of owner: any of them may fail and leave a part behind. */
    method CopyFile(src: Path, dst: Path, reliable: bool) returns (ok: bool)
      requires WellFormed(fs) && src in fs && fs[src].File? && dst != [] && dst !in fs
      modifies this
      ensures WellFormed(fs) && UnchangedOutside(old(fs), fs, dst)
      ensures ok ==> fs == old(fs)[dst := old(fs)[src]]
      ensures reliable ==> (ok <==> InDirectory(old(fs), dst))
    {
      MissingIsVacant(fs, dst);
      var writable := Attempt(reliable);
      var complete := Attempt(reliable);
      var owned := Attempt(reliable);
      if !InDirectory(fs, dst) || !writable {
        return false;
      }
      if !complete {
        var partial: Bytes := *;
        LeafAdded(fs, dst, File(partial));
        fs := fs[dst := File(partial)];
        return false;
      }
      LeafAdded(fs, dst, fs[src]);
      fs := fs[dst := fs[src]];
      if !owned {
        var unlinked: bool := *;
        if unlinked {
          fs := fs - {dst};
          assert fs == old(fs);
        }
        return false;
      }
      return true;
    }

    /** `mkdir`, `copymode` and the change of owner. */
    method MakeDir(dst: Path, reliable: bool) returns (ok: bool)
      requires WellFormed(fs) && dst != [] && dst !in fs
      modifies this
      ensures WellFormed(fs) && UnchangedOutside(old(fs), fs, dst)
      ensures ok ==> fs == old(fs)[dst := Dir]
      ensures reliable ==> (ok <==> InDirectory(old(fs), dst))
    {
      MissingIsVacant(fs, dst);
      var made := Attempt(reliable);
      var owned := Attempt(reliable);
      if !InDirectory(fs, dst) || !made {
        return false;
      }
      LeafAdded(fs, dst, Dir);
      fs := fs[dst := Dir];
      if !owned {
        var removed: bool := *;
        if removed {
          fs := fs - {dst};
          assert fs == old(fs);
        }
        return false;
      }
      return true;
    }

    /**
     * `_copy`. It needs the target not to lie below the source; then it ends, changes nothing outside
     * the target, and answers True only with an equal tree at the target.
     */
    method Copy(src: Path, dst: Path, reliable: bool) returns (ok: bool)
      requires WellFormed(fs) && dst != [] && !(src < dst)
      modifies this
      ensures WellFormed(fs)
      ensures UnchangedOutside(old(fs), fs, dst)
      ensures dst in old(fs) ==> !ok && fs == old(fs)
      ensures forall p :: src <= p ==> SameAt(old(fs), fs, p)
      ensures ok ==> src in fs && SameTree(fs, src, dst)
      ensures reliable ==> (ok <==> src in old(fs) && dst !in old(fs) && InDirectory(old(fs), dst))
      decreases Subtree(fs, src), 1
    {
      var allowed := Attempt(reliable);
      if src !in fs || dst[..|dst| - 1] !in fs || !allowed {
        return false;
      }
      if dst in fs {
        return false;
      }
      if dst <= src {
        AncestorsExist(fs, dst, src);
      }
      assert Apart(src, dst);
      MissingIsVacant(fs, dst);
      if fs[src].File? {
        ok := CopyFile(src, dst, reliable);
        if ok {
          FileCopied(old(fs), fs, src, dst);
        }
      } else {
        ok := CopyDir(src, dst, reliable);
      }
      SourceKept(old(fs), fs, src, dst);
      assert src <= src && SameAt(old(fs), fs, src);
    }

    method CopyDir(src: Path, dst: Path, reliable: bool) returns (ok: bool)
      requires WellFormed(fs) && dst != [] && Apart(src, dst)
      requires src in fs && fs[src] == Dir && dst !in fs && Vacant(fs, dst)
      modifies this
      ensures WellFormed(fs) && UnchangedOutside(old(fs), fs, dst)
      ensures ok ==> SameTree(fs, src, dst)
      ensures reliable ==> (ok <==> InDirectory(old(fs), dst))
      decreases Subtree(fs, src), 0
    {
      ok := MakeDir(dst, reliable);
      if !ok {
        return;
      }
      var listed := Attempt(reliable);
      if !listed {
        return false;
      }
      PlacesFree(old(fs), dst);
      SourceKept(old(fs), fs, src, dst);
      hide UnchangedOutside, SameTree, Vacant, WellFormed, Subtree, Children;
      var todo, done := Children(fs, src), {};
      while todo != {}
        invariant WellFormed(fs) && UnchangedOutside(old(fs), fs, dst)
        invariant dst in fs && fs[dst] == Dir
        invariant done + todo == Children(old(fs), src) && done !! todo
        invariant forall n :: n in done ==> SameTree(fs, src + [n], dst + [n])
        invariant forall n :: n !in done ==> Vacant(fs, dst + [n])
        decreases todo
      {
        var n :| n in todo;
        todo := todo - {n};
        ghost var before := fs;
        SourceKept(old(fs), fs, src, dst);
        ChildSmaller(old(fs), fs, src, n);
        ApartBelow(src, dst, [n], [n]);
        ChildFits(fs, src, dst, n);
        ok := Copy(src + [n], dst + [n], reliable);
        OthersKept(before, fs, src, dst, n, done);
        OutsideOfChild(old(fs), before, fs, dst, n);
        if !ok {
          return;
        }
        done := done + {n};
      }
      SourceKept(old(fs), fs, src, dst);
      assert src <= src && SameAt(old(fs), fs, src);
      DirCopied(fs, src, dst, done);
      return true;
    }
  }

  lemma ChildFits(fs: Tree, src: Path, dst: Path, n: string)
    requires n in Children(fs, src) && Vacant(fs, dst + [n]) && dst in fs && fs[dst] == Dir
    ensures src + [n] in fs && dst + [n] !in fs && InDirectory(fs, dst + [n])
  {
    ChildIs(fs, src, n);
    assert (dst + [n])[..|dst|] == dst;
  }

  lemma PlacesFree(fs: Tree, dst: Path)
    requires Vacant(fs, dst)
    ensures forall n :: Vacant(fs[dst := Dir], dst + [n])
    ensures UnchangedOutside(fs, fs[dst := Dir], dst)
  {
    var fs' := fs[dst := Dir];
    forall n, q | q in fs'
      ensures !(dst + [n] <= q)
    {
      assert dst + [n] <= q ==> dst <= q;
    }
  }

  lemma SourceKept(a: Tree, b: Tree, src: Path, dst: Path)
    requires UnchangedOutside(a, b, dst) && Apart(src, dst)
    ensures forall p :: src <= p ==> SameAt(a, b, p)
    ensures Children(a, src) == Children(b, src)
  {
    forall p | src <= p
      ensures SameAt(a, b, p)
    {
      assert p == src + p[|src|..];
      ApartBelow(src, dst, p[|src|..], []);
    }
    forall n
      ensures n in Children(a, src) <==> n in Children(b, src)
    {
      assert src <= src + [n] && SameAt(a, b, src + [n]);
      ChildIs(a, src, n);
      ChildIs(b, src, n);
    }
  }

  lemma ChildSmaller(a: Tree, b: Tree, src: Path, n: string)
    requires src in a && forall p :: src <= p ==> SameAt(a, b, p)
    ensures Subtree(b, src + [n]) < Subtree(a, src)
  {
    assert src in Subtree(a, src) && src !in Subtree(b, src + [n]);
    forall p | p in Subtree(b, src + [n])
      ensures p in Subtree(a, src)
    {
      assert src <= p && SameAt(a, b, p);
    }
  }

  /** Copying one child leaves the copies of the others, and the free places, as they are. */
  lemma OthersKept(a: Tree, b: Tree, src: Path, dst: Path, n: string, done: set<string>)
    requires UnchangedOutside(a, b, dst + [n]) && Apart(src, dst)
    requires forall m :: m in done ==> SameTree(a, src + [m], dst + [m])
    requires forall m :: m !in done ==> Vacant(a, dst + [m])
    requires n !in done
    ensures forall m :: m in done ==> SameTree(b, src + [m], dst + [m])
    ensures forall m :: m !in done && m != n ==> Vacant(b, dst + [m])
  {
    forall m | m in done
      ensures SameTree(b, src + [m], dst + [m])
    {
      forall r: Path
        ensures SameAt(a, b, src + [m] + r) && SameAt(a, b, dst + [m] + r)
      {
        ApartBelow(src, dst, [m] + r, [n]);
        assert src + [m] + r == src + ([m] + r);
        assert (dst + [m] + r)[|dst|] == m && (dst + [n])[|dst|] == n;
      }
    }
    forall m, q | m !in done && m != n && q in b
      ensures !(dst + [m] <= q)
    {
      assert (dst + [m])[|dst|] == m && (dst + [n])[|dst|] == n;
      assert dst + [m] <= q ==> q[|dst|] == m;
      assert dst + [n] <= q ==> q[|dst|] == n;
      assert q[..] == q && (dst + [n] <= q || SameAt(a, b, q));
    }
  }

  lemma OutsideOfChild(a: Tree, b: Tree, c: Tree, dst: Path, n: string)
    requires UnchangedOutside(a, b, dst) && UnchangedOutside(b, c, dst + [n])
    ensures UnchangedOutside(a, c, dst)
    ensures SameAt(b, c, dst)
  {
    forall p: Path | !(dst <= p)
      ensures SameAt(a, c, p)
    {
      assert !(dst + [n] <= p) by {
        assert dst + [n] <= p ==> dst <= p;
      }
      assert SameAt(a, b, p) && SameAt(b, c, p);
    }
  }

  lemma DirCopied(fs: Tree, src: Path, dst: Path, done: set<string>)
    requires WellFormed(fs) && src in fs && dst in fs && fs[src] == fs[dst] == Dir
    requires done == Children(fs, src)
    requires forall n :: n in done ==> SameTree(fs, src + [n], dst + [n])
    requires forall n :: n !in done ==> Vacant(fs, dst + [n])
    ensures SameTree(fs, src, dst)
  {
    forall r: Path
      ensures (src + r in fs <==> dst + r in fs) && (src + r in fs ==> fs[src + r] == fs[dst + r])
    {
      if r == [] {
        assert src + r == src && dst + r == dst;
      } else {
        var n, rest := r[0], r[1..];
        assert src + r == src + [n] + rest && dst + r == dst + [n] + rest;
        ChildIs(fs, src, n);
        if n !in done {
          assert src + [n] <= src + r && dst + [n] <= dst + r;
          MissingIsVacant(fs, src + [n]);
        }
      }
    }
  }

  lemma FileCopied(a: Tree, b: Tree, src: Path, dst: Path)
    requires WellFormed(b) && Apart(src, dst) && Vacant(a, dst)
    requires src in a && a[src].File? && b == a[dst := a[src]]
    ensures src in b && SameTree(b, src, dst)
  {
    forall r: Path
      ensures (src + r in b <==> dst + r in b) && (src + r in b ==> b[src + r] == b[dst + r])
    {
      if r == [] {
        assert src + r == src && dst + r == dst;
      } else {
        if src + r in b {
          AncestorsExist(b, src, src + r);
        }
        assert dst <= dst + r && dst + r != dst;
      }
    }
  }

  // ----- The callers' guards -----

  /** The path as a string: every component behind a slash. */
  function Text(p: Path): string {
    if p == [] then "" else Text(p[..|p| - 1]) + "/" + p[|p| - 1]
  }

  lemma {:induction false} TextOfPrefix(p: Path, q: Path)
    requires p <= q
    ensures Text(p) <= Text(q)
  {
    if p != q {
      TextOfPrefix(p, q[..|q| - 1]);
    }
  }

  /** The string test of `__paste`, `dst.find(fil) == 0`, keeps the copy's target out of its source. */
  lemma {:induction false} PasteTargetOutside(fil: Path, dst: Path)
    requires fil != [] && !(Text(fil) <= Text(dst))
    ensures !(fil < dst + [fil[|fil| - 1]])
  {
    hide Text;
    var target := dst + [fil[|fil| - 1]];
    if fil < target {
      assert target[..|fil|] == dst[..|fil|];
      TextOfPrefix(fil, dst);
    }
  }
}
