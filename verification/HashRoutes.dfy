/** Path hashes of the file manager and the three routes from a hash back to its path. */
module HashRoutes {
  import opened Wrappers
  import opened Utf8

  /** A path as the UTF-8 bytes of its text. */
  type Path = Bytes

  // ----- base16 -----

  function HexDigit(n: nat): char
    requires n < 16
  {
    if n < 10 then '0' + n as char else 'A' + (n - 10) as char
  }

  /** Only upper-case digits are accepted. */
  function HexValue(c: char): (r: Option<nat>)
    ensures r.Some? ==> r.value < 16 && HexDigit(r.value) == c
  {
    if '0' <= c <= '9' then Some(c as int - '0' as int)
    else if 'A' <= c <= 'F' then Some(c as int - 'A' as int + 10)
    else None
  }

  /** `base64.b16encode(path.encode('utf-8')).decode()`. */
  function MakeHash(p: Path): (h: string)
    ensures |h| == 2 * |p|
  {
    if p == [] then "" else [HexDigit(p[0] / 16), HexDigit(p[0] % 16)] + MakeHash(p[1..])
  }

  /** `base64.b16decode`; `None` is the exception for odd length or a foreign digit. */
  function B16Decode(h: string): Option<Bytes> {
    if h == "" then Some([])
    else if |h| == 1 then None
    else
      match (HexValue(h[0]), HexValue(h[1]), B16Decode(h[2..]))
      case (Some(a), Some(b), Some(rest)) => Some([16 * a + b] + rest)
      case _ => None
  }

  /** `base64.b16decode(h.encode()).decode()`. */
  function DecodePath(h: string): Option<Path> {
    match B16Decode(h)
    case None => None
    case Some(p) => if ValidUtf8(p) then Some(p) else None
  }

  lemma {:induction false} DecodeInvertsHash(p: Path)
    ensures B16Decode(MakeHash(p)) == Some(p)
    ensures ValidUtf8(p) ==> DecodePath(MakeHash(p)) == Some(p)
  {
    if p != [] {
      DecodeInvertsHash(p[1..]);
      assert MakeHash(p)[2..] == MakeHash(p[1..]);
      assert HexValue(HexDigit(p[0] / 16)) == Some(p[0] / 16) && HexValue(HexDigit(p[0] % 16)) == Some(p[0] % 16);
      assert p == [p[0]] + p[1..];
    }
  }

  /** Each decodable hash is the hash of what it decodes to: no two spellings of one path. */
  lemma {:induction false} HashInvertsDecode(h: string)
    requires B16Decode(h).Some?
    ensures MakeHash(B16Decode(h).value) == h
  {
    if h != "" {
      HashInvertsDecode(h[2..]);
      var a, b := HexValue(h[0]).value, HexValue(h[1]).value;
      var p := B16Decode(h).value;
      assert p[0] == 16 * a + b && p[1..] == B16Decode(h[2..]).value;
      assert p[0] / 16 == a && p[0] % 16 == b;
      assert h == [h[0], h[1]] + h[2..];
    }
  }

  lemma {:induction false} HashInjective(p: Path, q: Path)
    requires MakeHash(p) == MakeHash(q)
    ensures p == q
  {
    DecodeInvertsHash(p);
    DecodeInvertsHash(q);
  }

  // ----- The path pattern -----

  const SLASH: Byte := '/' as int
  const DOT: Byte := '.' as int
  const CR: Byte := 13
  const LF: Byte := 10

  /** A `..` between slashes, or at an end of `t`, a final line feed not counted. */
  predicate ParentAt(t: Path, k: int) {
    && 0 <= k && k + 1 < |t| && t[k] == DOT && t[k + 1] == DOT
    && (k == 0 || t[k - 1] == SLASH)
    && (k + 2 == |t| || t[k + 2] == SLASH || (k + 3 == |t| && t[k + 2] == LF))
  }

  /** The pattern `valid_path_pattern` for a root that means itself as a regular expression. */
  predicate ValidPath(root: Path, p: Path) {
    && root <= p
    && var rest := p[|root|..];
       || rest == [] || rest == [LF]
       || (rest[0] == SLASH
           && (forall i :: 0 <= i < |rest| ==> rest[i] != CR && (rest[i] == LF ==> i == |rest| - 1))
           && forall k :: 0 <= k < |rest| ==> !ParentAt(rest[1..], k))
  }

  // ----- The connector -----

  type Cache = map<string, Path>

  predicate Consistent(cache: Cache) {
    forall h :: h in cache ==> MakeHash(cache[h]) == h && ValidUtf8(cache[h])
  }

  /** What a lookup answers, by the cache and the decode route alone. */
  function Lookup(cache: Cache, root: Path, fhash: string): Option<Path> {
    if fhash in cache && cache[fhash] != [] then Some(cache[fhash])
    else
      match DecodePath(fhash)
      case None => None
      case Some(p) => if p != [] && ValidPath(root, p) then Some(p) else None
  }

  class FilesConnector {
    var cachedPath: Cache
    const root: Path

    ghost predicate Valid()
      reads this
    {
      Consistent(cachedPath) && root != [] && ValidUtf8(root)
    }

    /** The cache is the one all connectors of the process share, with what they have hashed before. */
    constructor (root: Path, cache: Cache)
      requires root != [] && ValidUtf8(root) && Consistent(cache)
      ensures Valid() && this.root == root && cachedPath == cache
    {
      this.root := root;
      cachedPath := cache;
    }

    method Hash(path: Path) returns (h: string)
      requires Valid() && ValidUtf8(path)
      modifies this
      ensures Valid() && h == MakeHash(path) && cachedPath == old(cachedPath)[h := path]
    {
      h := MakeHash(path);
      cachedPath := cachedPath[h := path];
      assert forall k :: k in cachedPath ==> k == h || k in old(cachedPath);
    }

    /** The walk: every path met is hashed, and thereby cached, until one has the wanted hash. */
    method FindByWalk(fhash: string, walk: seq<Path>) returns (found: Option<Path>)
      requires Valid() && forall i :: 0 <= i < |walk| ==> walk[i] != [] && ValidUtf8(walk[i])
      modifies this
      ensures Valid() && old(cachedPath).Keys <= cachedPath.Keys
      ensures found.Some? ==> found.value in walk && MakeHash(found.value) == fhash
      ensures found == None ==> forall i :: 0 <= i < |walk| ==> MakeHash(walk[i]) != fhash
      ensures AllBelow(root, old(cachedPath)) && EachBelow(root, walk) ==> AllBelow(root, cachedPath)
    {
      hide BelowRoot, MakeHash, ValidUtf8;
      for i := 0 to |walk|
        invariant Valid() && old(cachedPath).Keys <= cachedPath.Keys
        invariant AllBelow(root, old(cachedPath)) && EachBelow(root, walk) ==> AllBelow(root, cachedPath)
        invariant forall j :: 0 <= j < i ==> MakeHash(walk[j]) != fhash
      {
        var h := Hash(walk[i]);
        if fhash == h {
          return Some(walk[i]);
        }
      }
      return None;
    }

    /** `_find`, with the paths below the walk's start as an input; an empty `parent` is `None`. */
    method Find(fhash: string, parent: Path, isDir: bool, walk: seq<Path>) returns (found: Option<Path>)
      requires Valid() && forall i :: 0 <= i < |walk| ==> walk[i] != [] && ValidUtf8(walk[i])
      modifies this
      ensures Valid() && found == Lookup(old(cachedPath), root, fhash)
      ensures old(cachedPath).Keys <= cachedPath.Keys
      ensures AllBelow(root, old(cachedPath)) && EachBelow(root, walk) ==> AllBelow(root, cachedPath)
    {
      RootIsBelow(root);
      hide BelowRoot;
      if fhash in cachedPath && cachedPath[fhash] != [] {
        return Some(cachedPath[fhash]);
      }
      var decodePath := DecodePath(fhash);
      if decodePath.Some? && decodePath.value != [] {
        return if ValidPath(root, decodePath.value) then decodePath else None;
      }
      var start := parent;
      if start == [] {
        start := root;
        var h := Hash(root);
        if fhash == h {
          DecodeInvertsHash(root);
          return Some(root);
        }
      }
      if !ValidPath(root, start) || isDir {
        found := FindByWalk(fhash, walk);
        if found.Some? {
          DecodeInvertsHash(found.value);
        }
        return;
      }
      return None;
    }

    /** `_find_dir`; the walk lists directories only. */
    method FindDir(fhash: string, path: Path, isDir: bool, walk: seq<Path>) returns (found: Option<Path>)
      requires Valid() && forall i :: 0 <= i < |walk| ==> walk[i] != [] && ValidUtf8(walk[i])
      modifies this
      ensures Valid() && found == Lookup(old(cachedPath), root, fhash)
      ensures old(cachedPath).Keys <= cachedPath.Keys
      ensures AllBelow(root, old(cachedPath)) && EachBelow(root, walk) ==> AllBelow(root, cachedPath)
    {
      RootIsBelow(root);
      hide BelowRoot;
      if fhash in cachedPath && cachedPath[fhash] != [] {
        return Some(cachedPath[fhash]);
      }
      var decodePath := DecodePath(fhash);
      if decodePath.Some? && decodePath.value != [] {
        return if ValidPath(root, decodePath.value) then decodePath else None;
      }
      var start := path;
      if start == [] {
        start := root;
        var h := Hash(root);
        if fhash == h {
          DecodeInvertsHash(root);
          return Some(root);
        }
      }
      if !ValidPath(root, start) || !isDir {
        return None;
      }
      found := FindByWalk(fhash, walk);
      if found.Some? {
        DecodeInvertsHash(found.value);
      }
    }
  }

  /**
   * A lookup finds a path exactly when the hash is that path's, and the path has been hashed before
   * or matches the pattern; so all routes give the same path, and the walk finds none on its own.
   */
  lemma {:induction false} LookupIsInverse(cache: Cache, root: Path, fhash: string, p: Path)
    requires Consistent(cache)
    ensures Lookup(cache, root, fhash) == Some(p)
            <==> p != [] && ValidUtf8(p) && MakeHash(p) == fhash && (fhash in cache || ValidPath(root, p))
  {
    DecodeInvertsHash(p);
    if fhash in cache {
      DecodeInvertsHash(cache[fhash]);
    }
    if B16Decode(fhash).Some? {
      HashInvertsDecode(fhash);
    }
  }

  /** Whatever has been cached, under whatever roots: two lookups find the same path exactly for the same hash. */
  lemma LookupUnique(cache: Cache, root: Path, h: string, cache': Cache, root': Path, h': string)
    requires Consistent(cache) && Consistent(cache')
    requires Lookup(cache, root, h).Some? && Lookup(cache', root', h').Some?
    ensures Lookup(cache, root, h) == Lookup(cache', root', h') <==> h == h'
  {
    hide Lookup, Consistent;
    var p, p' := Lookup(cache, root, h).value, Lookup(cache', root', h').value;
    LookupIsInverse(cache, root, h, p);
    LookupIsInverse(cache', root', h', p');
    if h == h' {
      HashInjective(p, p');
    }
  }

  /** Hashing a path makes it findable by its hash for good, however many other paths follow. */
  lemma {:induction false} HashedStaysFindable(cache: Cache, root: Path, p: Path, later: seq<Path>)
    requires Consistent(cache) && p != [] && ValidUtf8(p)
    requires forall i :: 0 <= i < |later| ==> ValidUtf8(later[i])
    ensures Consistent(HashAll(cache[MakeHash(p) := p], later))
    ensures Lookup(HashAll(cache[MakeHash(p) := p], later), root, MakeHash(p)) == Some(p)
  {
    var start := cache[MakeHash(p) := p];
    assert Consistent(start);
    HashAllKeeps(start, later);
    LookupIsInverse(HashAll(start, later), root, MakeHash(p), p);
  }

  /** The cache after hashing `paths` one by one. */
  function HashAll(cache: Cache, paths: seq<Path>): Cache {
    if paths == [] then cache
    else HashAll(cache, paths[..|paths| - 1])[MakeHash(paths[|paths| - 1]) := paths[|paths| - 1]]
  }

  lemma {:induction false} HashAllKeeps(cache: Cache, paths: seq<Path>)
    requires Consistent(cache) && forall i :: 0 <= i < |paths| ==> ValidUtf8(paths[i])
    ensures Consistent(HashAll(cache, paths)) && cache.Keys <= HashAll(cache, paths).Keys
  {
    if paths != [] {
      HashAllKeeps(cache, paths[..|paths| - 1]);
    }
  }

  // ----- What the pattern keeps out -----

  /** Without the line feed that may end a match. */
  function Trimmed(t: Path): Path {
    if t != [] && t[|t| - 1] == LF then t[..|t| - 1] else t
  }

  const PARENT: Path := [DOT, DOT]

  /** The root itself, or the root, a slash and components none of which is `..`, without line breaks. */
  predicate BelowRoot(root: Path, p: Path) {
    && root <= p
    && var t := Trimmed(p[|root|..]);
       && CR !in t && LF !in t
       && (t == [] || (t[0] == SLASH && PARENT !in Split(t[1..], SLASH)))
  }

  lemma {:induction false} SplitAt(s: Path)
    ensures var i := IndexOf(s, SLASH);
            Split(s, SLASH) == if i == |s| then [s] else [s[..i]] + Split(s[i + 1..], SLASH)
  {
  }

  lemma {:induction false} ComponentAt(t: Path, k: nat)
    requires k + 2 <= |t| && t[k..k + 2] == PARENT && (k == 0 || t[k - 1] == SLASH) && (k + 2 == |t| || t[k + 2] == SLASH)
    ensures PARENT in Split(t, SLASH)
    decreases |t|
  {
    hide Split;
    SplitAt(t);
    var i := IndexOf(t, SLASH);
    hide IndexOf;
    assert t[k] == t[k..k + 2][0] == DOT && t[k + 1] == t[k..k + 2][1] == DOT;
    if k == 0 {
      assert i == 2;
      assert t[..i] == PARENT;
      if i == |t| {
        assert t == PARENT;
      }
    } else {
      assert i <= k - 1 by { assert t[k - 1] == SLASH; }
      var rest := t[i + 1..];
      var j := k - i - 1;
      assert rest[j..j + 2] == t[k..k + 2];
      assert j > 0 ==> rest[j - 1] == t[k - 1];
      assert j + 2 < |rest| ==> rest[j + 2] == t[k + 2];
      ComponentAt(rest, j);
    }
  }

  lemma {:induction false} ComponentFound(t: Path) returns (k: nat)
    requires PARENT in Split(t, SLASH)
    ensures k + 2 <= |t| && t[k..k + 2] == PARENT && (k == 0 || t[k - 1] == SLASH) && (k + 2 == |t| || t[k + 2] == SLASH)
    decreases |t|
  {
    hide Split;
    SplitAt(t);
    var i := IndexOf(t, SLASH);
    hide IndexOf;
    if i == |t| {
      assert t == PARENT;
      k := 0;
    } else if t[..i] == PARENT {
      k := 0;
      assert i == 2;
    } else {
      var rest := t[i + 1..];
      assert Split(t, SLASH) == [t[..i]] + Split(rest, SLASH);
      var j := ComponentFound(rest);
      k := i + 1 + j;
      assert rest[j..j + 2] == t[k..k + 2];
      assert j > 0 ==> rest[j - 1] == t[k - 1];
      assert j + 2 < |rest| ==> rest[j + 2] == t[k + 2];
    }
  }

  /** Some place of the text before a final line feed is `..` exactly if some component of that text is. */
  lemma ParentIsComponent(t: Path)
    requires LF !in Trimmed(t)
    ensures (exists k :: 0 <= k < |t| && ParentAt(t, k)) <==> PARENT in Split(Trimmed(t), SLASH)
  {
    hide Split;
    var u := Trimmed(t);
    if k :| 0 <= k < |t| && ParentAt(t, k) {
      assert u[k..k + 2] == PARENT;
      ComponentAt(u, k);
    }
    if PARENT in Split(u, SLASH) {
      var k := ComponentFound(u);
      assert u[k] == PARENT[0] && u[k + 1] == PARENT[1];
      assert ParentAt(t, k);
    }
  }

  /** The path pattern, component by component. */
  lemma PatternIsBelow(root: Path, p: Path)
    requires root <= p
    ensures ValidPath(root, p) <==> BelowRoot(root, p)
  {
    var rest := p[|root|..];
    hide ParentAt, Split;
    LineBreaks(rest);
    if |rest| >= 1 && rest[0] == SLASH && LF !in Trimmed(rest) {
      var t := rest[1..];
      TrimmedTail(rest);
      ParentIsComponent(t);
      NowhereElse(t);
    }
  }

  lemma TrimmedTail(rest: Path)
    requires rest != [] && rest[0] == SLASH && LF !in Trimmed(rest)
    ensures Trimmed(rest) != [] && Trimmed(rest)[1..] == Trimmed(rest[1..]) && LF !in Trimmed(rest[1..])
    ensures Trimmed(rest)[0] == SLASH
  {
    if |rest| > 1 {
      assert rest[1..][|rest| - 2] == rest[|rest| - 1];
    }
    assert Trimmed(rest)[1..] == Trimmed(rest[1..]);
    assert forall x :: x in Trimmed(rest)[1..] ==> x in Trimmed(rest);
  }

  lemma LineBreaks(rest: Path)
    ensures (forall i :: 0 <= i < |rest| ==> rest[i] != CR && (rest[i] == LF ==> i == |rest| - 1))
            <==> CR !in Trimmed(rest) && LF !in Trimmed(rest)
    ensures Trimmed(rest) == [] <==> rest == [] || rest == [LF]
  {
    var t := Trimmed(rest);
    assert forall i :: 0 <= i < |t| ==> t[i] == rest[i];
  }

  lemma NowhereElse(t: Path)
    ensures (forall k :: 0 <= k < |t| + 1 ==> !ParentAt(t, k)) <==> !(exists k :: 0 <= k < |t| && ParentAt(t, k))
  {
  }

  /**
   * With nothing cached, a lookup finds a path exactly if it has that hash and is the root or below it,
   * component by component.
   */
  lemma {:induction false} LookupBelowRoot(root: Path, fhash: string, p: Path)
    requires root != []
    ensures Lookup(map[], root, fhash) == Some(p)
            <==> ValidUtf8(p) && MakeHash(p) == fhash && BelowRoot(root, p)
  {
    hide ValidPath, BelowRoot, Lookup;
    LookupIsInverse(map[], root, fhash, p);
    if root <= p {
      PatternIsBelow(root, p);
    }
    assert ValidPath(root, p) ==> root <= p by { PatternBegins(root, p); }
    assert BelowRoot(root, p) ==> root <= p by { PatternBegins(root, p); }
  }

  lemma PatternBegins(root: Path, p: Path)
    ensures ValidPath(root, p) || BelowRoot(root, p) ==> root <= p
  {
  }

  lemma RootIsBelow(root: Path)
    ensures BelowRoot(root, root)
  {
  }

  // ----- Resolving a path never climbs above the root -----

  /** The directory reached from `at` by the components, `..` leading one up. */
  function Resolved(at: seq<Path>, components: seq<Path>): seq<Path>
    decreases |components|
  {
    if components == [] then at
    else
      var c := components[0];
      var next := if c == PARENT then (if at == [] then at else at[..|at| - 1])
                  else if c == [] || c == [DOT] then at
                  else at + [c];
      Resolved(next, components[1..])
  }

  lemma {:induction false} NeverClimbs(at: seq<Path>, components: seq<Path>)
    requires PARENT !in components
    ensures at <= Resolved(at, components)
    decreases |components|
  {
    if components != [] {
      var c := components[0];
      assert components[0] in components;
      assert forall x :: x in components[1..] ==> x in components;
      NeverClimbs(if c == [] || c == [DOT] then at else at + [c], components[1..]);
    }
  }

  lemma {:induction false} ResolvedConcat(at: seq<Path>, a: seq<Path>, b: seq<Path>)
    ensures Resolved(at, a + b) == Resolved(Resolved(at, a), b)
    decreases |a|
  {
    if a == [] {
      assert a + b == b;
    } else {
      assert (a + b)[1..] == a[1..] + b && (a + b)[0] == a[0];
      var c := a[0];
      ResolvedConcat(if c == PARENT then (if at == [] then at else at[..|at| - 1])
                     else if c == [] || c == [DOT] then at else at + [c], a[1..], b);
    }
  }

  lemma {:induction false} SlashInFront(a: Path, b: Path)
    ensures IndexOf(a + [SLASH] + b, SLASH) == IndexOf(a, SLASH)
  {
    var s := a + [SLASH] + b;
    assert s[|a|] == SLASH && forall j :: 0 <= j < |a| ==> s[j] == a[j];
    hide IndexOf;
  }

  /** Splitting at a slash in the middle splits both sides. */
  lemma {:induction false} SplitJoined(a: Path, b: Path)
    ensures Split(a + [SLASH] + b, SLASH) == Split(a, SLASH) + Split(b, SLASH)
    decreases |a|
  {
    hide Split, IndexOf;
    var s := a + [SLASH] + b;
    var i := IndexOf(a, SLASH);
    SlashInFront(a, b);
    SplitAt(a);
    SplitAt(s);
    if i == |a| {
      assert s[..i] == a && s[i + 1..] == b;
    } else {
      assert s[..i] == a[..i] && s[i + 1..] == a[i + 1..] + [SLASH] + b;
      SplitJoined(a[i + 1..], b);
    }
  }

  /** A final line feed makes no component `..`. */
  lemma {:induction false} NoParentTrimmed(t: Path)
    requires PARENT !in Split(Trimmed(t), SLASH)
    ensures PARENT !in Split(t, SLASH)
  {
    hide Split;
    if PARENT in Split(t, SLASH) && t != Trimmed(t) {
      var k := ComponentFound(t);
      var u := Trimmed(t);
      assert t[k + 1] == t[k..k + 2][1] == DOT;
      assert k + 2 <= |u| && u[k..k + 2] == t[k..k + 2];
      ComponentAt(u, k);
    }
  }

  /**
   * Whatever a lookup with nothing cached finds, resolving it step by step ends at the root or below. The one
   * other match of the pattern is the root followed by a line feed.
   */
  lemma {:induction false} FoundStaysBelow(root: Path, fhash: string, p: Path)
    requires root != [] && Lookup(map[], root, fhash) == Some(p)
    ensures p == root + [LF] || Resolved([], Split(root, SLASH)) <= Resolved([], Split(p, SLASH))
  {
    LookupBelowRoot(root, fhash, p);
    BelowResolved(root, p);
  }

  lemma {:induction false} BelowResolved(root: Path, p: Path)
    requires BelowRoot(root, p)
    ensures p == root + [LF] || Resolved([], Split(root, SLASH)) <= Resolved([], Split(p, SLASH))
  {
    hide Split, Resolved;
    var rest := p[|root|..];
    LineBreaks(rest);
    if rest != [] && rest != [LF] {
      var t := rest[1..];
      TrimmedTail(rest);
      NoParentTrimmed(t);
      assert rest[0] == Trimmed(rest)[0] == SLASH;
      assert p == root + [SLASH] + t;
      SplitJoined(root, t);
      ResolvedConcat([], Split(root, SLASH), Split(t, SLASH));
      NeverClimbs(Resolved([], Split(root, SLASH)), Split(t, SLASH));
    } else {
      assert p == root + rest && (rest == [] ==> p == root);
    }
  }

  // ----- Caches below the root -----

  predicate EachBelow(root: Path, paths: seq<Path>) {
    forall i :: 0 <= i < |paths| ==> BelowRoot(root, paths[i])
  }

  predicate AllBelow(root: Path, cache: Cache) {
    forall h :: h in cache ==> BelowRoot(root, cache[h])
  }

  /** With only paths below the root cached, only such paths are found. */
  lemma FoundIsBelow(cache: Cache, root: Path, fhash: string)
    requires root != [] && AllBelow(root, cache)
    ensures Lookup(cache, root, fhash).Some? ==> BelowRoot(root, Lookup(cache, root, fhash).value)
  {
    hide ValidPath, BelowRoot;
    if !(fhash in cache && cache[fhash] != []) && Lookup(cache, root, fhash).Some? {
      var p := Lookup(cache, root, fhash).value;
      PatternBegins(root, p);
      PatternIsBelow(root, p);
    }
  }

  /** Hashing paths below the root keeps it so. */
  lemma {:induction false} HashAllBelow(cache: Cache, root: Path, paths: seq<Path>)
    requires AllBelow(root, cache) && EachBelow(root, paths)
    ensures AllBelow(root, HashAll(cache, paths))
  {
    hide BelowRoot;
    if paths != [] {
      HashAllBelow(cache, root, paths[..|paths| - 1]);
    }
  }

  const SAMPLE_ROOT: Path := [SLASH, 'r' as int]

  lemma UpIsInvalid()
    ensures !ValidPath(SAMPLE_ROOT, SAMPLE_ROOT + [SLASH, DOT, DOT, SLASH, 'x' as int])
  {
    var up := SAMPLE_ROOT + [SLASH, DOT, DOT, SLASH, 'x' as int];
    assert up[2..] == [SLASH, DOT, DOT, SLASH, 'x' as int];
    assert up[2..][1..] == [DOT, DOT, SLASH, 'x' as int];
    assert ParentAt([DOT, DOT, SLASH, 'x' as int], 0);
  }

  lemma DownIsValid()
    ensures ValidPath(SAMPLE_ROOT, SAMPLE_ROOT + [SLASH, DOT, DOT, 'x' as int])
  {
    var down := SAMPLE_ROOT + [SLASH, DOT, DOT, 'x' as int];
    assert down[2..] == [SLASH, DOT, DOT, 'x' as int] && down[2..][1..] == [DOT, DOT, 'x' as int];
    assert SAMPLE_ROOT <= down;
    var t := down[2..][1..];
    assert forall k :: 0 <= k < 4 ==> !ParentAt(t, k);
  }

  /** Concretely: the hash of `/r/../x` finds nothing under the root `/r`, that of `/r/..x` does. */
  lemma ParentRefused()
    ensures Lookup(map[], SAMPLE_ROOT, MakeHash(SAMPLE_ROOT + [SLASH, DOT, DOT, SLASH, 'x' as int])) == None
    ensures Lookup(map[], SAMPLE_ROOT, MakeHash(SAMPLE_ROOT + [SLASH, DOT, DOT, 'x' as int])).Some?
  {
    hide ValidPath, MakeHash, DecodePath, ValidUtf8;
    var up, down := SAMPLE_ROOT + [SLASH, DOT, DOT, SLASH, 'x' as int], SAMPLE_ROOT + [SLASH, DOT, DOT, 'x' as int];
    UpIsInvalid();
    DownIsValid();
    AsciiValid(up);
    AsciiValid(down);
    DecodeInvertsHash(up);
    DecodeInvertsHash(down);
  }

  /** Concretely: the bytes of `/r` in base16 (section 8 of RFC 4648). */
  lemma SampleHash()
    ensures MakeHash(SAMPLE_ROOT) == "2F72" && MakeHash([0xAB, 0xCD, 0xEF, 0x09]) == "ABCDEF09"
  {
    assert SAMPLE_ROOT[1..] == ['r' as int] && SAMPLE_ROOT[1..][1..] == [];
    assert MakeHash(['r' as int]) == "72";
    var b: Path := [0xAB, 0xCD, 0xEF, 0x09];
    assert b[1..] == [0xCD, 0xEF, 0x09] && b[1..][1..] == [0xEF, 0x09] && b[1..][1..][1..] == [0x09] && b[1..][1..][1..][1..] == [];
    assert MakeHash([0x09]) == "09" && MakeHash([0xEF, 0x09]) == "EF09" && MakeHash([0xCD, 0xEF, 0x09]) == "CDEF09";
  }
}
