/** The duplicate command: a fresh name beside the source, and a copy of the tree under it. */
module Duplicate {
  import FreshName
  import opened TreeCopy

  /** Component names as file systems have them. */
  predicate Proper(p: Path) {
    forall i :: 0 <= i < |p| ==> p[i] != "" && '/' !in p[i]
  }

  function Parent(p: Path): Path
    requires p != []
  {
    p[..|p| - 1]
  }

  function ExistingTexts(fs: Tree): set<string> {
    set p | p in fs :: Text(p)
  }

  lemma {:induction false} StripOne(dir: string)
    requires dir == "" || dir[|dir| - 1] != '/'
    ensures FreshName.StripSlashes(dir + "/") == dir
  {
    assert (dir + "/")[..|dir|] == dir;
  }

  /** The directory part of a path's text, joined with a name, is the text of the sibling of that name. */
  lemma {:induction false} SiblingText(p: Path, name: string)
    requires p != [] && Proper(p)
    ensures '/' in Text(p)
    ensures FreshName.Join(FreshName.Dirname(Text(p)), name) == Text(Parent(p) + [name])
  {
    var dir, last := Text(Parent(p)), p[|p| - 1];
    assert Text(p) == dir + "/" + last;
    assert Text(p)[|dir|] == '/' && Text(p)[|dir| + 1..] == last;
    FreshName.LastSlashBefore(Text(p), last, |dir|);
    assert Text(p)[..|dir| + 1] == dir + "/";
    TextEnd(Parent(p));
    StripOne(dir);
    assert (Parent(p) + [name])[..|p| - 1] == Parent(p);
    if dir == "" {
      assert FreshName.Dirname(Text(p)) == "/";
    }
  }

  lemma {:induction false} TextEnd(p: Path)
    requires Proper(p)
    ensures Text(p) == "" || Text(p)[|Text(p)| - 1] != '/'
  {
    if p != [] {
      var last := p[|p| - 1];
      assert Text(p)[|Text(p)| - 1] == last[|last| - 1];
    }
  }

  lemma Beside(p: Path, name: string)
    requires p != []
    ensures var dst := Parent(p) + [name];
            |dst| == |p| && !(p < dst) && (dst == p <==> name == p[|p| - 1])
  {
    var dst := Parent(p) + [name];
    assert dst[|p| - 1] == name;
    if name == p[|p| - 1] {
      assert dst == p;
    }
  }

  lemma {:induction false} TextExists(fs: Tree, p: Path)
    requires p in fs
    ensures Text(p) in ExistingTexts(fs)
  {
    hide Text;
  }

  /**
   * A free name in the directory of an existing path is the text of another component beside it: the copy's
   * target is neither the source nor inside it.
   */
  lemma {:induction false} FreshTargetOutside(fs: Tree, fil: Path, fresh': string)
    requires fil != [] && Proper(fil)
    requires fresh' !in ExistingTexts(fs) && FreshName.SameDirectory(Text(fil), fresh')
    ensures var dst := Parent(fil) + [FreshName.Basename(fresh')];
            && Text(dst) == fresh' && dst !in fs && !(fil < dst)
            && (fil in fs ==> dst != fil && FreshName.Basename(fresh') != fil[|fil| - 1])
  {
    var name := FreshName.Basename(fresh');
    var dst := Parent(fil) + [name];
    SiblingText(fil, name);
    Beside(fil, name);
    hide *;
    if dst in fs {
      TextExists(fs, dst);
    }
  }

  /** `__duplicate` for one target, with the answers of the file system in place of the random text. */
  method Duplicated(store: FileStore, fil: Path, reliable: bool) returns (ok: bool, dst: Path)
    requires WellFormed(store.fs) && fil != [] && Proper(fil)
    modifies store
    ensures WellFormed(store.fs)
    ensures |dst| == |fil| && Parent(dst) == Parent(fil) && dst !in old(store.fs)
    ensures UnchangedOutside(old(store.fs), store.fs, dst)
    ensures fil in old(store.fs) ==> dst != fil
    ensures forall p :: fil <= p ==> SameAt(old(store.fs), store.fs, p)
    ensures ok ==> fil in store.fs && SameTree(store.fs, fil, dst)
    ensures reliable ==> (ok <==> fil in old(store.fs))
  {
    var isDir := fil in store.fs && store.fs[fil] == Dir;
    SiblingText(fil, "");
    var newName := FreshName.UniqueName(Text(fil), ExistingTexts(store.fs), isDir, FreshName.COPY, "");
    FreshTargetOutside(store.fs, fil, newName);
    dst := Parent(fil) + [FreshName.Basename(newName)];
    assert Parent(dst) == Parent(fil);
    assert fil in store.fs ==> InDirectory(store.fs, fil);
    ok := store.Copy(fil, dst, reliable);
  }
}
