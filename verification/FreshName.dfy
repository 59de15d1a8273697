/** The search for an unused " copy" name. */
module FreshName {
  import opened Wrappers
  import opened Decimals

  type Path = string

  const COPY := " copy"

  /** What the callers append: a copy's suffix, or nothing for a new archive or folder. */
  type Suffix = s: string | s == COPY || s == ""

  // ----- posixpath -----

  function LastIndex(s: string, c: char): (i: int)
    ensures -1 <= i < |s|
    ensures i >= 0 ==> s[i] == c
    ensures forall j :: i < j < |s| ==> s[j] != c
  {
    if s == [] then -1 else if s[|s| - 1] == c then |s| - 1 else LastIndex(s[..|s| - 1], c)
  }

  function StripSlashes(s: string): (t: string)
    ensures t <= s && (t != [] ==> t[|t| - 1] != '/')
    ensures forall i :: |t| <= i < |s| ==> s[i] == '/'
  {
    if s != [] && s[|s| - 1] == '/' then StripSlashes(s[..|s| - 1]) else s
  }

  function Basename(p: Path): Path {
    p[LastIndex(p, '/') + 1..]
  }

  /** `os.path.dirname`: trailing slashes go, unless the head is nothing but slashes. */
  function Dirname(p: Path): Path {
    var head := p[..LastIndex(p, '/') + 1];
    if StripSlashes(head) == [] then head else StripSlashes(head)
  }

  /** `os.path.join` with a relative second part. */
  function Join(dir: Path, name: Path): Path {
    if dir == [] || dir[|dir| - 1] == '/' then dir + name else dir + "/" + name
  }

  // ----- How the name is taken apart -----

  predicate EndsWith(s: string, suffix: string) {
    |suffix| <= |s| && s[|s| - |suffix|..] == suffix
  }

  /** `\..{3}\.(gz|bz|bz2)$`, for names without a line break. */
  predicate DoubleExtension(name: string) {
    || ((EndsWith(name, ".gz") || EndsWith(name, ".bz")) && |name| >= 7 && name[|name| - 7] == '.')
    || (EndsWith(name, ".bz2") && |name| >= 8 && name[|name| - 8] == '.')
  }

  /** Stem and extension of a base name. */
  function SplitName(name: string, isDir: bool): (r: (string, string))
    ensures r.0 + r.1 == name
  {
    if !isDir && DoubleExtension(name) then
      var pos := |name| - if name[|name| - 1] == '2' then 8 else 7;
      (name[..pos], name[pos..])
    else if isDir || LastIndex(name, '.') <= 0 then (name, "")
    else (name[..LastIndex(name, '.')], name[LastIndex(name, '.')..])
  }

  /** The digits that end `s`. */
  function DigitTail(s: string): (n: nat)
    ensures n <= |s| && AllDigits(s[|s| - n..])
    ensures n < |s| ==> !IsDigit(s[|s| - n - 1])
  {
    if s != [] && IsDigit(s[|s| - 1]) then
      var n := 1 + DigitTail(s[..|s| - 1]);
      assert s[|s| - n..] == s[..|s| - 1][|s| - n..] + [s[|s| - 1]];
      n
    else 0
  }

  /** The suffix and `\s\d+$` at the end of the stem: where the number part begins, if it matches. */
  function CopyNumber(stem: string, copy: Suffix): (r: Option<nat>)
    ensures r.Some? ==> |copy| <= r.value < |stem| && EndsWith(stem[..r.value], copy)
                        && AllDigits(stem[r.value + 1..])
  {
    var n := DigitTail(stem);
    if n >= 1 && n + 1 <= |stem| && IsSpace(stem[|stem| - n - 1]) && EndsWith(stem[..|stem| - n - 1], copy) then
      Some(|stem| - n - 1)
    else None
  }

  /** The name the numbered candidates are built on, and the first number to try. */
  datatype Plan = Plan(base: string, ext: string, first: nat, tryPlain: bool)

  /** `stem[-len(copy):] == copy`: for the empty suffix the slice is the whole stem. */
  predicate HasSuffix(stem: string, copy: Suffix) {
    if copy == "" then stem == "" else EndsWith(stem, copy)
  }

  /**
   * The last place of the empty suffix is the end of the stem, so with it a numbered stem stays whole and
   * the numbers start afresh.
   */
  function NamePlan(path: Path, isDir: bool, copy: Suffix): Plan {
    var (stem, ext) := SplitName(Basename(path), isDir);
    if HasSuffix(stem, copy) then Plan(stem, ext, 2, false)
    else
      match CopyNumber(stem, copy)
      case Some(pos) =>
        if copy == "" then Plan(stem, ext, 2, false)
        else Plan(stem[..pos], ext, ReadNat(stem[pos + 1..]) + 1, false)
      case None => Plan(stem + copy, ext, 2, true)
  }

  function Candidate(path: Path, plan: Plan, idx: nat): Path {
    Join(Dirname(path), plan.base + " " + PrintNat(idx) + plan.ext)
  }

  function Plain(path: Path, plan: Plan): Path {
    Join(Dirname(path), plan.base + plan.ext)
  }

  // ----- Names stay in the directory -----

  /** The other path is a name in the directory of `path`. */
  predicate SameDirectory(path: Path, other: Path) {
    && Dirname(other) == Dirname(path)
    && other == Join(Dirname(path), Basename(other)) && '/' !in Basename(other)
  }

  lemma JoinStays(path: Path, name: string)
    requires '/' in path && '/' !in name
    ensures Dirname(Join(Dirname(path), name)) == Dirname(path)
    ensures Basename(Join(Dirname(path), name)) == name
  {
    var d := Dirname(path);
    var head := path[..LastIndex(path, '/') + 1];
    assert LastIndex(path, '/') >= 0 && head != [];
    var p := Join(d, name);
    var k := |p| - |name| - 1;
    assert p[k] == '/' && p[k + 1..] == name;
    LastSlashBefore(p, name, k);
    if StripSlashes(head) == [] {
      assert d == head && p[..k + 1] == head;
    } else {
      assert p[..k + 1] == d + "/";
      assert (d + "/")[..|d|] == d && StripSlashes(d) == d;
    }
  }

  lemma {:induction false} LastSlashBefore(p: Path, name: string, k: nat)
    requires '/' !in name && k < |p| && p[k] == '/' && p[k + 1..] == name
    ensures LastIndex(p, '/') == k
  {
    var i := LastIndex(p, '/');
    assert forall j :: k < j < |p| ==> p[j] == name[j - k - 1];
  }

  lemma Middle(pre: string, a: string, b: string, post: string)
    requires pre + a + post == pre + b + post
    ensures a == b
  {
    assert |a| == |b|;
    assert (pre + a + post)[|pre|..|pre| + |a|] == a;
    assert (pre + b + post)[|pre|..|pre| + |b|] == b;
  }

  /** Different numbers give different candidates. */
  lemma CandidatesDiffer(path: Path, plan: Plan, i: nat, j: nat)
    requires Candidate(path, plan, i) == Candidate(path, plan, j)
    ensures i == j
  {
    hide Dirname, PrintNat;
    var d := Dirname(path);
    var pre := (if d == [] || d[|d| - 1] == '/' then d else d + "/") + plan.base + " ";
    assert Candidate(path, plan, i) == pre + PrintNat(i) + plan.ext;
    assert Candidate(path, plan, j) == pre + PrintNat(j) + plan.ext;
    Middle(pre, PrintNat(i), PrintNat(j), plan.ext);
    PrintNatInjective(i, j);
  }

  /** `uuid` stands for the random text the name without a directory part gets. */
  method UniqueName(path: Path, existing: set<Path>, isDir: bool, copy: Suffix, uuid: string) returns (newPath: Path)
    ensures '/' !in path ==> newPath == "." + uuid + "-" + path
    ensures '/' in path ==> newPath !in existing && SameDirectory(path, newPath)
    ensures '/' in path ==> (var plan := NamePlan(path, isDir, copy);
                             FirstFree(path, plan, existing, newPath))
  {
    if path == Basename(path) {
      LastSlashInside(path);
      return "." + uuid + "-" + path;
    }
    LastSlashInside(path);
    var plan := NamePlan(path, isDir, copy);
    PlanInDirectory(path, isDir, copy);
    hide NamePlan, Candidate, Plain, Dirname, Basename, Numbered, SameDirectory;
    if plan.tryPlain {
      newPath := Plain(path, plan);
      PlainInDirectory(path, plan);
      if newPath !in existing {
        return;
      }
    }
    var idx;
    newPath, idx := SearchNumbered(path, plan, existing);
    NumberedInDirectory(path, plan, idx);
  }

  /** The endless probing loop: it stops because only finitely many candidates can be taken. */
  method SearchNumbered(path: Path, plan: Plan, existing: set<Path>) returns (newPath: Path, idx: nat)
    ensures newPath !in existing && Numbered(path, plan, existing, newPath, idx)
  {
    hide Candidate;
    idx := plan.first;
    ghost var probed: set<Path> := {};
    while true
      invariant plan.first <= idx
      invariant probed <= existing && |probed| == idx - plan.first
      invariant forall p :: p in probed ==> exists k :: plan.first <= k < idx && Candidate(path, plan, k) == p
      invariant forall k :: plan.first <= k < idx ==> Candidate(path, plan, k) in existing
      decreases existing - probed
    {
      newPath := Candidate(path, plan, idx);
      if newPath !in existing {
        ProbeBound(probed, existing);
        return;
      }
      if newPath in probed {
        var k :| plan.first <= k < idx && Candidate(path, plan, k) == newPath;
        CandidatesDiffer(path, plan, k, idx);
      }
      probed := probed + {newPath};
      idx := idx + 1;
    }
  }

  /** `newPath` is the candidate with number `idx`, and every candidate before it is taken. */
  predicate Numbered(path: Path, plan: Plan, existing: set<Path>, newPath: Path, idx: nat) {
    && plan.first <= idx <= plan.first + |existing|
    && newPath == Candidate(path, plan, idx)
    && forall k :: plan.first <= k < idx ==> Candidate(path, plan, k) in existing
  }

  /** The plain copy name if it may be used and is free, otherwise the first free numbered one. */
  ghost predicate FirstFree(path: Path, plan: Plan, existing: set<Path>, newPath: Path) {
    if plan.tryPlain && Plain(path, plan) !in existing then newPath == Plain(path, plan)
    else exists idx :: Numbered(path, plan, existing, newPath, idx)
  }

  lemma ProbeBound(probed: set<Path>, existing: set<Path>)
    requires probed <= existing
    ensures |probed| <= |existing|
  {
    assert existing == probed + (existing - probed);
    assert |existing| == |probed| + |existing - probed|;
  }

  lemma LastSlashInside(path: Path)
    ensures path == Basename(path) <==> '/' !in path
    ensures '/' !in Basename(path)
  {
    var i := LastIndex(path, '/');
    if i >= 0 {
      assert path[i] == '/';
      assert |Basename(path)| < |path|;
    }
  }

  lemma PlanInDirectory(path: Path, isDir: bool, copy: Suffix)
    ensures '/' !in NamePlan(path, isDir, copy).base && '/' !in NamePlan(path, isDir, copy).ext
  {
    hide Basename, LastIndex, DigitTail, CopyNumber, DoubleExtension, ReadNat;
    LastSlashInside(path);
    var name := Basename(path);
    var (stem, ext) := SplitName(name, isDir);
    assert forall c :: c in stem || c in ext ==> c in name;
  }

  lemma NumberedInDirectory(path: Path, plan: Plan, idx: nat)
    requires '/' in path && '/' !in plan.base && '/' !in plan.ext
    ensures SameDirectory(path, Candidate(path, plan, idx))
  {
    assert '/' !in PrintNat(idx) by {
      assert forall c :: c in PrintNat(idx) ==> IsDigit(c);
    }
    JoinStays(path, plan.base + " " + PrintNat(idx) + plan.ext);
  }

  lemma PlainInDirectory(path: Path, plan: Plan)
    requires '/' in path && '/' !in plan.base && '/' !in plan.ext
    ensures SameDirectory(path, Plain(path, plan))
  {
    JoinStays(path, plan.base + plan.ext);
  }

  // ----- Which name is tried, by the shape of the old one -----

  /** An extension: a dot and more, without another dot or slash. */
  predicate Extension(ext: string) {
    ext != "" && ext[0] == '.' && '.' !in ext[1..] && '/' !in ext
  }

  lemma {:induction false} LastIndexIs(s: string, c: char, i: nat)
    requires i < |s| && s[i] == c && forall j :: i < j < |s| ==> s[j] != c
    ensures LastIndex(s, c) == i
  {
  }

  lemma {:induction false} BasenameIs(dir: string, name: string)
    requires '/' !in name
    ensures Basename(dir + "/" + name) == name
  {
    var p := dir + "/" + name;
    assert p[|dir|] == '/' && p[|dir| + 1..] == name;
    LastSlashBefore(p, name, |dir|);
  }

  /** A file's name comes apart before its last dot, unless that is the first character or it is archived twice. */
  lemma {:induction false} SplitsAtDot(stem: string, ext: string)
    requires stem != "" && Extension(ext) && !DoubleExtension(stem + ext)
    ensures SplitName(stem + ext, false) == (stem, ext)
  {
    var name := stem + ext;
    assert name[|stem|] == '.';
    forall j | |stem| < j < |name|
      ensures name[j] != '.'
    {
      assert name[j] == ext[1..][j - |stem| - 1];
    }
    LastIndexIs(name, '.', |stem|);
    assert name[..|stem|] == stem && name[|stem|..] == ext;
  }

  /** A name without a dot, or with a first dot only, is all stem. */
  lemma {:induction false} NoExtension(name: string)
    requires name != "" && '.' !in name[1..]
    ensures SplitName(name, false) == (name, "")
  {
    assert forall i :: 0 < i < |name| ==> name[i] == name[1..][i - 1];
    if DoubleExtension(name) {
      DotInside(name);
    }
  }

  lemma {:induction false} DotInside(name: string)
    requires DoubleExtension(name)
    ensures |name| >= 3 && '.' in name[1..]
  {
    if EndsWith(name, ".gz") {
      assert name[|name| - 3..][0] == '.' && name[1..][|name| - 4] == '.';
    } else if EndsWith(name, ".bz") {
      assert name[|name| - 3..][0] == '.' && name[1..][|name| - 4] == '.';
    } else {
      assert name[|name| - 4..][0] == '.' && name[1..][|name| - 5] == '.';
    }
  }

  /** Three characters between two dots and an archive's ending belong to the extension. */
  lemma {:induction false} SplitsArchive(stem: string, three: string, ending: string)
    requires |three| == 3 && (ending == ".gz" || ending == ".bz" || ending == ".bz2")
    ensures SplitName(stem + "." + three + ending, false) == (stem, "." + three + ending)
  {
    var name, ext := stem + "." + three + ending, "." + three + ending;
    assert name == stem + ext && |ext| == 4 + |ending|;
    assert name[|name| - |ending|..] == ending;
    assert name[|stem|] == '.' && |name| - |ext| == |stem|;
    assert name[..|stem|] == stem && name[|stem|..] == ext;
    assert name[|name| - 1] == ending[|ending| - 1];
    assert EndsWith(name, ending);
  }

  predicate Archive(name: string, stem: string, three: string, ending: string) {
    |three| == 3 && (ending == ".gz" || ending == ".bz" || ending == ".bz2") && name == stem + "." + three + ending
  }

  /** Those are the only names taken for archives. */
  lemma OnlyArchives(name: string)
    ensures DoubleExtension(name) <==> exists stem, three, ending :: Archive(name, stem, three, ending)
  {
    if DoubleExtension(name) {
      LastOfSuffix(name, ".gz");
      LastOfSuffix(name, ".bz");
      LastOfSuffix(name, ".bz2");
      var ending := if EndsWith(name, ".gz") then ".gz" else if EndsWith(name, ".bz") then ".bz" else ".bz2";
      ArchiveParts(name, ending);
    }
    if stem, three, ending :| Archive(name, stem, three, ending) {
      assert name[|name| - |ending|..] == ending;
      assert name[|stem|] == '.' && |name| - |ending| - 4 == |stem|;
    }
  }

  lemma ArchiveParts(name: string, ending: string)
    requires (ending == ".gz" || ending == ".bz" || ending == ".bz2") && EndsWith(name, ending)
    requires |name| >= |ending| + 4 && name[|name| - |ending| - 4] == '.'
    ensures exists stem, three, e :: Archive(name, stem, three, e)
  {
    var n := |name| - |ending|;
    var stem, three := name[..n - 4], name[n - 3..n];
    assert name == name[..n - 4] + [name[n - 4]] + name[n - 3..n] + name[n..];
    assert [name[n - 4]] == "." && name[n..] == ending;
    assert Archive(name, stem, three, ending);
  }

  lemma {:induction false} DigitsEnd(s: string, digits: string)
    requires AllDigits(digits) && (s == "" || !IsDigit(s[|s| - 1]))
    ensures DigitTail(s + digits) == |digits|
  {
    if digits == "" {
      assert s + digits == s;
    } else {
      var n := |digits| - 1;
      assert (s + digits)[..|s| + n] == s + digits[..n];
      DigitsEnd(s, digits[..n]);
    }
  }

  lemma LastOfSuffix(s: string, suffix: string)
    requires suffix != ""
    ensures EndsWith(s, suffix) ==> s != "" && s[|s| - 1] == suffix[|suffix| - 1]
  {
    if EndsWith(s, suffix) {
      assert s[|s| - |suffix|..][|suffix| - 1] == s[|s| - 1];
    }
  }

  /** The stem ends with the copy suffix: numbers from two are put behind it, and nothing else is tried. */
  lemma {:induction false} PlanOfCopy(dir: string, s: string, ext: string, isDir: bool)
    requires '/' !in s + COPY + ext && SplitName(s + COPY + ext, isDir) == (s + COPY, ext)
    ensures NamePlan(dir + "/" + (s + COPY + ext), isDir, COPY) == Plan(s + COPY, ext, 2, false)
  {
    BasenameIs(dir, s + COPY + ext);
    assert (s + COPY)[|s|..] == COPY;
    hide SplitName, Basename;
  }

  /** The stem ends with the suffix, a blank and a number: the numbering goes on. */
  lemma {:induction false} PlanOfNumbered(dir: string, s: string, number: nat, ext: string, isDir: bool)
    requires var stem := s + COPY + " " + PrintNat(number);
             '/' !in stem + ext && SplitName(stem + ext, isDir) == (stem, ext)
    ensures NamePlan(dir + "/" + (s + COPY + " " + PrintNat(number) + ext), isDir, COPY)
         == Plan(s + COPY, ext, number + 1, false)
  {
    hide SplitName, Basename;
    var digits := PrintNat(number);
    var stem := s + COPY + " " + digits;
    BasenameIs(dir, stem + ext);
    DigitsEnd(s + COPY + " ", digits);
    var pos := |s + COPY|;
    assert stem[..pos] == s + COPY && stem[pos] == ' ' && stem[pos + 1..] == digits;
    assert (s + COPY)[|s|..] == COPY;
    assert stem[|stem| - 1] == digits[|digits| - 1];
    LastOfSuffix(stem, COPY);
    ReadPrintNat(number);
    hide DigitTail, ReadNat;
  }

  /** With the empty suffix a numbered stem is kept whole, and numbers from two are put behind it. */
  lemma {:induction false} PlanOfNumberedFolder(dir: string, s: string, number: nat)
    requires '/' !in s
    ensures NamePlan(dir + "/" + (s + " " + PrintNat(number)), true, "") == Plan(s + " " + PrintNat(number), "", 2, false)
  {
    hide Basename;
    var digits := PrintNat(number);
    var stem := s + " " + digits;
    assert forall c :: c in digits ==> IsDigit(c);
    BasenameIs(dir, stem);
    DigitsEnd(s + " ", digits);
    assert stem[|s|] == ' ' && |stem| - |digits| - 1 == |s|;
    assert stem[..|s|][|s|..] == "";
    hide DigitTail;
  }

  /** Any other stem gets the suffix, alone if that is free, and otherwise with numbers from two. */
  lemma {:induction false} PlanOfOther(dir: string, stem: string, ext: string, isDir: bool, copy: Suffix)
    requires '/' !in stem + ext && SplitName(stem + ext, isDir) == (stem, ext)
    requires !HasSuffix(stem, copy) && CopyNumber(stem, copy) == None
    ensures NamePlan(dir + "/" + (stem + ext), isDir, copy) == Plan(stem + copy, ext, 2, true)
  {
    BasenameIs(dir, stem + ext);
    hide SplitName, Basename, CopyNumber, HasSuffix;
  }

  /** Concretely: a first copy of a file. */
  lemma FirstCopy()
    ensures NamePlan("/d/a.txt", false, COPY) == Plan("a copy", ".txt", 2, true)
  {
    hide NamePlan, SplitName, CopyNumber, HasSuffix;
    SplitsAtDot("a", ".txt");
    NoNumber("a");
    PlanOfOther("/d", "a", ".txt", false, COPY);
    assert "/d" + "/" + ("a" + ".txt") == "/d/a.txt" && "a" + COPY == "a copy";
  }

  /** A copy of a copy. */
  lemma SecondCopy()
    ensures NamePlan("/d/a copy.txt", false, COPY) == Plan("a copy", ".txt", 2, false)
  {
    hide NamePlan, SplitName;
    assert "a" + COPY == "a copy";
    SplitsAtDot("a copy", ".txt");
    PlanOfCopy("/d", "a", ".txt", false);
    assert "/d" + "/" + ("a copy" + ".txt") == "/d/a copy.txt";
  }

  /** A copy of a numbered copy. */
  lemma NumberedCopy()
    ensures NamePlan("/d/a copy 9.txt", false, COPY) == Plan("a copy", ".txt", 10, false)
  {
    hide NamePlan, SplitName;
    Nines();
    assert "a" + COPY + " " + PrintNat(9) == "a copy 9" && "a" + COPY == "a copy";
    SplitsAtDot("a copy 9", ".txt");
    PlanOfNumbered("/d", "a", 9, ".txt", false);
    assert "/d" + "/" + ("a copy 9" + ".txt") == "/d/a copy 9.txt";
  }

  /** A folder's dot is no extension. */
  lemma FolderCopy()
    ensures NamePlan("/d/a.txt", true, COPY) == Plan("a.txt copy", "", 2, true)
  {
    hide NamePlan, CopyNumber, HasSuffix;
    NoNumber("a.txt");
    assert "a.txt" + "" == "a.txt" && "a.txt" + COPY == "a.txt copy";
    PlanOfOther("/d", "a.txt", "", true, COPY);
    assert "/d" + "/" + "a.txt" == "/d/a.txt";
  }

  lemma {:induction false} Nines()
    ensures PrintNat(9) == "9"
  {
  }

  lemma {:induction false} NoNumber(stem: string)
    requires stem != "" && !IsDigit(stem[|stem| - 1]) && stem[|stem| - 1] != 'y'
    ensures CopyNumber(stem, COPY) == None && !HasSuffix(stem, COPY)
  {
    LastOfSuffix(stem, COPY);
  }
}
