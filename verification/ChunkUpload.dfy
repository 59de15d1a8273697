/** The chunked upload: a `.parts` file written out of order and a record file of marks. */
module ChunkUpload {
  import opened Wrappers

  type Path = string
  type Files = map<Path, Bytes>

  const MARK: Byte := 'X' as int

  function Repeated(b: Byte, n: nat): (r: Bytes)
    ensures |r| == n && forall i :: 0 <= i < n ==> r[i] == b
  {
    seq(n, _ => b)
  }

  /** `seek(pos)` and `write(data)`: a gap beyond the end is filled with zero bytes. */
  function WriteAt(content: Bytes, pos: nat, data: Bytes): (r: Bytes)
    ensures data == [] ==> r == content
    ensures data != [] ==> |r| == if pos + |data| <= |content| then |content| else pos + |data|
    ensures data != [] ==> forall i {:trigger r[i]} :: 0 <= i < |r| ==>
      r[i] == if pos <= i < pos + |data| then data[i - pos] else if i < |content| then content[i] else 0
  {
    if data == [] then content
    else
      (if pos <= |content| then content[..pos] else content + Repeated(0, pos - |content|))
      + data
      + (if pos + |data| <= |content| then content[pos + |data|..] else [])
  }

  function Concat(buffers: seq<Bytes>): Bytes {
    if buffers == [] then [] else buffers[0] + Concat(buffers[1..])
  }

  /** The buffered copy: it stops after the buffer that passes the announced length. */
  function WriteBuffers(content: Bytes, pos: nat, buffers: seq<Bytes>, room: int): Bytes
    decreases |buffers|
  {
    if buffers == [] then content
    else
      var content' := WriteAt(content, pos, buffers[0]);
      if |buffers[0]| > room then content'
      else WriteBuffers(content', pos + |buffers[0]|, buffers[1..], room - |buffers[0]|)
  }

  datatype Part = Part(index: nat, totalChunks: nat, start: nat, length: int, total: int, buffers: seq<Bytes>)

  datatype Reply =
    | TypeRefused | TooLarge | NameRefused
    | Stored(merged: bool, sizeError: bool)

  /** `os.path.join(cur_dir, name)` for a directory without a trailing slash. */
  function Join(dir: Path, name: string): Path {
    dir + "/" + name
  }

  function PartsPath(dir: Path, name: string): Path {
    Join(dir, name + ".parts")
  }

  function RecordPath(dir: Path, name: string): Path {
    Join(dir, "." + name + ".txt")
  }

  function Content(files: Files, p: Path): Bytes {
    if p in files then files[p] else []
  }

  /** What storing one part does to the files, the checks on its name and size passed. */
  function Store(files: Files, dir: Path, name: string, part: Part): (Files, bool) {
    var parts, record := PartsPath(dir, name), RecordPath(dir, name);
    var files1 := if parts !in files then files - {record} else files;
    var written := WriteBuffers(Content(files, parts), part.start, part.buffers, part.length);
    var marks := WriteAt(Content(files1, record), part.index, [MARK]);
    if marks == Repeated(MARK, part.totalChunks + 1) then (files1[parts := written] - {record}, true)
    else (files1[parts := written][record := marks], false)
  }

  /**
   * What the closing request does: rename into place, or discard what is too large or not allowed. Unless
   * the file system permits the unlink or rename, everything stays.
   */
  function Close(files: Files, dir: Path, name: string, maxSize: int, allowed: bool, permitted: bool): Files {
    var parts := PartsPath(dir, name);
    if parts !in files || !permitted then files
    else if |files[parts]| > maxSize || !allowed then files - {parts}
    else (files - {parts})[Join(dir, name) := files[parts]]
  }

  /** The copy loop: writes buffer after buffer, and gives up once too much has been written. */
  method CopyBuffers(content: Bytes, start: nat, buffers: seq<Bytes>, length: int) returns (fil: Bytes, sizeError: bool)
    requires forall i :: 0 <= i < |buffers| ==> buffers[i] != []
    ensures fil == WriteBuffers(content, start, buffers, length)
    ensures sizeError <==> buffers != [] && |Concat(buffers)| > length
  {
    hide WriteAt;
    fil, sizeError := content, false;
    var writtenSize := 0;
    assert buffers[0..] == buffers;
    for i := 0 to |buffers|
      invariant 0 <= writtenSize && writtenSize + |Concat(buffers[i..])| == |Concat(buffers)|
      invariant WriteBuffers(content, start, buffers, length)
             == WriteBuffers(fil, start + writtenSize, buffers[i..], length - writtenSize)
      invariant i > 0 ==> writtenSize <= length
    {
      assert buffers[i..][1..] == buffers[i + 1..];
      fil := WriteAt(fil, start + writtenSize, buffers[i]);
      writtenSize := writtenSize + |buffers[i]|;
      if writtenSize > length {
        sizeError := true;
        break;
      }
    }
  }

  class UploadDirectory {
    var files: Files
    const maxSize: int

    constructor (files: Files, maxSize: int)
      ensures this.files == files && this.maxSize == maxSize
    {
      this.files := files;
      this.maxSize := maxSize;
    }

    /** The `.part` branch of an upload request; `allowed` and `nameOk` are the name checks' results. */
    method UploadPart(dir: Path, name: string, part: Part, allowed: bool, nameOk: bool) returns (reply: Reply)
      requires forall i :: 0 <= i < |part.buffers| ==> part.buffers[i] != []
      modifies this
      ensures !allowed ==> reply == TypeRefused && files == old(files)
      ensures allowed && part.total > maxSize ==> reply == TooLarge && files == old(files)
      ensures allowed && part.total <= maxSize && !nameOk ==> reply == NameRefused && files == old(files)
      ensures allowed && part.total <= maxSize && nameOk ==>
        reply == Stored(Store(old(files), dir, name, part).1, part.buffers != [] && |Concat(part.buffers)| > part.length)
        && files == Store(old(files), dir, name, part).0
    {
      if !allowed {
        return TypeRefused;
      }
      if part.total > maxSize {
        return TooLarge;
      }
      if !nameOk {
        return NameRefused;
      }
      hide WriteAt, Concat, WriteBuffers, Repeated;
      var recordPath, filePath := RecordPath(dir, name), PartsPath(dir, name);
      PathsDistinct(dir, name);
      hide PartsPath, RecordPath;
      ghost var files1 := if filePath !in files then files - {recordPath} else files;
      if filePath !in files && recordPath in files {
        files := files - {recordPath};
      }
      assert files == files1;
      var fil, sizeError := CopyBuffers(Content(files, filePath), part.start, part.buffers, part.length);
      files := files[filePath := fil];
      var record := WriteAt(Content(files, recordPath), part.index, [MARK]);
      assert record == WriteAt(Content(files1, recordPath), part.index, [MARK]);
      files := files[recordPath := record];
      var merged := record == Repeated(MARK, part.totalChunks + 1);
      if merged {
        files := files - {recordPath};
        assert files == files1[filePath := fil] - {recordPath};
      }
      return Stored(merged, sizeError);
    }

    /** The closing request, named after the file itself. */
    method CloseUpload(dir: Path, name: string, allowed: bool, permitted: bool)
      modifies this
      ensures files == Close(old(files), dir, name, maxSize, allowed, permitted)
    {
      var filePath := Join(dir, name);
      var parts := PartsPath(dir, name);
      if parts in files {
        if |files[parts]| > maxSize {
          if permitted {
            files := files - {parts};
          }
        } else if allowed {
          if permitted {
            files := (files - {parts})[filePath := files[parts]];
          }
        } else if permitted {
          files := files - {parts};
        }
      }
    }
  }

  lemma PathsDistinct(dir: Path, name: string)
    ensures PartsPath(dir, name) != RecordPath(dir, name)
    ensures Join(dir, name) != PartsPath(dir, name) && Join(dir, name) != RecordPath(dir, name)
  {
    assert |PartsPath(dir, name)| == |dir| + 1 + |name| + 6;
    assert |RecordPath(dir, name)| == |dir| + 1 + |name| + 5;
    assert |Join(dir, name)| == |dir| + 1 + |name|;
  }

  // ----- A file cut into pieces -----

  datatype Piece = Piece(offset: nat, size: nat)

  /** A file and its pieces: slices that together cover it. */
  datatype Plan = Plan(original: Bytes, pieces: seq<Piece>) {
    ghost predicate Valid() {
      && pieces != []
      && (forall i :: 0 <= i < |pieces| ==> pieces[i].offset + pieces[i].size <= |original|)
      && (forall p :: 0 <= p < |original| ==> InSomePiece(p))
    }

    ghost predicate InSomePiece(p: int) {
      exists i :: 0 <= i < |pieces| && InPiece(i, p)
    }

    predicate InPiece(i: nat, p: int)
      requires i < |pieces|
    {
      pieces[i].offset <= p < pieces[i].offset + pieces[i].size
    }

    /** The request that carries piece `i`, whatever its buffers. */
    predicate Carries(part: Part, i: nat) {
      && i < |pieces| && pieces[i].offset + pieces[i].size <= |original|
      && part.index == i && part.totalChunks == |pieces| - 1
      && part.start == pieces[i].offset
      && Concat(part.buffers) == original[pieces[i].offset..pieces[i].offset + pieces[i].size]
      && pieces[i].size <= part.length
    }

    function Indices(): set<nat> {
      UpTo(|pieces|)
    }
  }

  // ----- Runs -----

  /** A request of this upload, or any change to a file that is not one of its two working files. */
  datatype Event = Received(part: Part) | Closed(allowed: bool, permitted: bool) | Elsewhere(path: Path, change: seq<Bytes>)

  datatype Upload = Upload(dir: Path, name: string, plan: Plan, maxSize: int) {
    function Parts(): Path { PartsPath(dir, name) }
    function Record(): Path { RecordPath(dir, name) }

    predicate Admits(e: Event) {
      match e
      case Received(part) => plan.Carries(part, part.index)
      case Closed(_, _) => true
      case Elsewhere(path, _) => path != Parts() && path != Record()
    }

    predicate AdmitsAll(es: seq<Event>) {
      forall i :: 0 <= i < |es| ==> Admits(es[i])
    }

    function Next(files: Files, e: Event): Files {
      match e
      case Received(part) => Store(files, dir, name, part).0
      case Closed(allowed, permitted) => Close(files, dir, name, maxSize, allowed, permitted)
      case Elsewhere(path, change) => if change == [] then files - {path} else files[path := change[0]]
    }

    function After(files: Files, es: seq<Event>): Files {
      if es == [] then files else Next(After(files, es[..|es| - 1]), es[|es| - 1])
    }
  }

  /**
   * The indices received since the record was last removed, and since `.parts` was begun. A closing request
   * ends the count unless it leaves `.parts` where it is.
   */
  datatype Tally = Tally(since: set<nat>, covered: set<nat>)

  function Count(t: Tally, e: Event, full: set<nat>, kept: bool): Tally {
    match e
    case Received(part) =>
      var since := t.since + {part.index};
      Tally(if since == full then {} else since, t.covered + {part.index})
    case Closed(_, _) => if kept then t else Tally({}, {})
    case Elsewhere(_, _) => t
  }

  function CountAll(u: Upload, files: Files, es: seq<Event>): Tally {
    if es == [] then Tally({}, {})
    else Count(CountAll(u, files, es[..|es| - 1]), es[|es| - 1], u.plan.Indices(), u.Parts() in u.After(files, es))
  }

  // ----- Invariant of every run -----

  /** The record holds a mark exactly at the counted indices, and ends with one. */
  predicate Marks(record: Bytes, since: set<nat>) {
    && record != [] && record[|record| - 1] == MARK
    && (forall i: nat :: i in since ==> i < |record|)
    && (forall i :: 0 <= i < |record| ==> (record[i] == MARK <==> i in since))
  }

  ghost predicate HoldsPieces(content: Bytes, plan: Plan, covered: set<nat>) {
    && |content| <= |plan.original|
    && forall i, p :: i in covered && i < |plan.pieces| && plan.InPiece(i, p) ==>
         0 <= p < |content| && content[p] == plan.original[p]
  }

  ghost predicate Inv(u: Upload, files: Files, t: Tally) {
    && u.plan.Valid()
    && t.since <= t.covered <= u.plan.Indices()
    && t.since != u.plan.Indices()
    && (u.Parts() !in files ==> t == Tally({}, {}))
    && (u.Parts() in files ==>
          && HoldsPieces(files[u.Parts()], u.plan, t.covered)
          && (u.Record() in files <==> t.since != {})
          && (u.Record() in files ==> Marks(files[u.Record()], t.since)))
  }

  lemma WriteTwice(content: Bytes, pos: nat, a: Bytes, b: Bytes)
    ensures WriteAt(WriteAt(content, pos, a), pos + |a|, b) == WriteAt(content, pos, a + b)
  {
    hide WriteAt;
    if a != [] && b != [] {
      var x, y := WriteAt(WriteAt(content, pos, a), pos + |a|, b), WriteAt(content, pos, a + b);
      assert |x| == |y| && forall i :: 0 <= i < |x| ==> x[i] == y[i];
    } else {
      assert a + b == if a == [] then b else a;
    }
  }

  /** Buffers within the announced length are written as one block, whatever their sizes. */
  lemma {:induction false} BuffersAsOne(content: Bytes, pos: nat, buffers: seq<Bytes>, room: int)
    requires |Concat(buffers)| <= room
    ensures WriteBuffers(content, pos, buffers, room) == WriteAt(content, pos, Concat(buffers))
    decreases |buffers|
  {
    if buffers != [] {
      var a, b := buffers[0], Concat(buffers[1..]);
      BuffersAsOne(WriteAt(content, pos, a), pos + |a|, buffers[1..], room - |a|);
      WriteTwice(content, pos, a, b);
    }
  }

  lemma PieceWritten(content: Bytes, plan: Plan, covered: set<nat>, i: nat)
    requires plan.Valid() && HoldsPieces(content, plan, covered) && i < |plan.pieces|
    ensures HoldsPieces(
              WriteAt(content, plan.pieces[i].offset,
                      plan.original[plan.pieces[i].offset..plan.pieces[i].offset + plan.pieces[i].size]),
              plan, covered + {i})
  {
    hide WriteAt;
    var off, data := plan.pieces[i].offset, plan.original[plan.pieces[i].offset..plan.pieces[i].offset + plan.pieces[i].size];
    var content' := WriteAt(content, off, data);
    forall j, p | j in covered + {i} && j < |plan.pieces| && plan.InPiece(j, p)
      ensures 0 <= p < |content'| && content'[p] == plan.original[p]
    {
      if off <= p < off + |data| {
        assert content'[p] == data[p - off];
      } else {
        assert j in covered && p < |content|;
        assert content'[p] == content[p];
      }
    }
  }

  lemma Marked(record: Bytes, since: set<nat>, i: nat)
    requires if record == [] then since == {} else Marks(record, since)
    ensures Marks(WriteAt(record, i, [MARK]), since + {i})
  {
    hide WriteAt;
  }

  /** The record spells all marks exactly when every index is in. */
  lemma {:induction false} FullRecord(record: Bytes, since: set<nat>, n: nat)
    requires Marks(record, since) && forall i :: i in since ==> i < n
    ensures record == Repeated(MARK, n) <==> since == UpTo(n)
  {
    var full := UpTo(n);
    if record == Repeated(MARK, n) {
      assert since == full;
    }
    if since == full {
      assert n > 0 ==> n - 1 in since;
      assert |record| - 1 in since;
    }
  }

  lemma CoversAll(content: Bytes, plan: Plan)
    requires plan.Valid() && HoldsPieces(content, plan, plan.Indices())
    ensures content == plan.original
  {
    forall p | 0 <= p < |plan.original|
      ensures p < |content| && content[p] == plan.original[p]
    {
      assert plan.InSomePiece(p);
      var i :| 0 <= i < |plan.pieces| && plan.InPiece(i, p);
      assert i in plan.Indices();
    }
    if plan.original != [] {
      var last := |plan.original| - 1;
      var b := plan.original[last];
      assert last < |content|;
    }
  }

  /** What is in `.parts` after a part of the plan, and what that means for the covered pieces. */
  lemma PartsAfter(u: Upload, files: Files, t: Tally, part: Part)
    requires Inv(u, files, t) && u.plan.Carries(part, part.index)
    ensures u.Parts() in Store(files, u.dir, u.name, part).0
    ensures HoldsPieces(Store(files, u.dir, u.name, part).0[u.Parts()], u.plan, t.covered + {part.index})
  {
    hide WriteAt, Repeated;
    PathsDistinct(u.dir, u.name);
    hide PartsPath, RecordPath;
    var content := Content(files, u.Parts());
    BuffersAsOne(content, part.start, part.buffers, part.length);
    PieceWritten(content, u.plan, t.covered, part.index);
  }

  /** The record file after a part, and when it is taken for complete. */
  lemma RecordAfter(u: Upload, files: Files, t: Tally, part: Part)
    requires Inv(u, files, t) && u.plan.Carries(part, part.index)
    ensures var (files', merged) := Store(files, u.dir, u.name, part);
            && (merged <==> t.since + {part.index} == u.plan.Indices())
            && (merged <==> u.Record() !in files')
            && (!merged ==> Marks(files'[u.Record()], t.since + {part.index}))
  {
    hide WriteAt, WriteBuffers, HoldsPieces;
    PathsDistinct(u.dir, u.name);
    hide PartsPath, RecordPath;
    var files1 := if u.Parts() !in files then files - {u.Record()} else files;
    var record := Content(files1, u.Record());
    Marked(record, t.since, part.index);
    FullRecord(WriteAt(record, part.index, [MARK]), t.since + {part.index}, |u.plan.pieces|);
  }

  /** One part: reported merged exactly when it completes the index set, and then the file is whole. */
  lemma PartKeepsInv(u: Upload, files: Files, t: Tally, part: Part)
    requires Inv(u, files, t) && u.plan.Carries(part, part.index)
    ensures Inv(u, u.Next(files, Received(part)), Count(t, Received(part), u.plan.Indices(), true))
    ensures Store(files, u.dir, u.name, part).1 <==> t.since + {part.index} == u.plan.Indices()
    ensures Store(files, u.dir, u.name, part).1 ==>
              Content(u.Next(files, Received(part)), u.Parts()) == u.plan.original
  {
    hide Store, Marks, HoldsPieces;
    PartsAfter(u, files, t, part);
    RecordAfter(u, files, t, part);
    assert 0 in u.plan.Indices();
    if t.since + {part.index} == u.plan.Indices() {
      assert t.covered + {part.index} == u.plan.Indices();
      CoversAll(Store(files, u.dir, u.name, part).0[u.Parts()], u.plan);
    }
    hide Store, Marks, HoldsPieces, PartsPath, RecordPath;
  }

  lemma EventKeepsInv(u: Upload, files: Files, t: Tally, e: Event)
    requires Inv(u, files, t) && u.Admits(e)
    ensures Inv(u, u.Next(files, e), Count(t, e, u.plan.Indices(), u.Parts() in u.Next(files, e)))
  {
    PathsDistinct(u.dir, u.name);
    match e
    case Received(part) => PartKeepsInv(u, files, t, part);
    case Closed(_, _) => assert 0 in u.plan.Indices();
    case Elsewhere(_, _) =>
  }

  lemma {:induction false} RunKeepsInv(u: Upload, files: Files, es: seq<Event>)
    requires u.plan.Valid() && u.Parts() !in files && u.AdmitsAll(es)
    ensures Inv(u, u.After(files, es), CountAll(u, files, es))
  {
    if es == [] {
      assert 0 in u.plan.Indices();
    } else {
      var before, e := es[..|es| - 1], es[|es| - 1];
      RunKeepsInv(u, files, before);
      EventKeepsInv(u, u.After(files, before), CountAll(u, files, before), e);
    }
  }

  /**
   * Every arrival order, repeats, closings in between and other traffic included: a part is reported
   * merged exactly when it completes the index set since the record was last removed, and at every
   * such report `.parts` is the original.
   */
  lemma {:induction false} MergedExactlyWhenComplete(u: Upload, files: Files, es: seq<Event>, part: Part)
    requires u.plan.Valid() && u.Parts() !in files && u.AdmitsAll(es) && u.plan.Carries(part, part.index)
    ensures Store(u.After(files, es), u.dir, u.name, part).1
            <==> CountAll(u, files, es).since + {part.index} == u.plan.Indices()
    ensures Store(u.After(files, es), u.dir, u.name, part).1 ==>
              Content(u.After(files, es + [Received(part)]), u.Parts()) == u.plan.original
  {
    RunKeepsInv(u, files, es);
    PartKeepsInv(u, u.After(files, es), CountAll(u, files, es), part);
    assert (es + [Received(part)])[..|es|] == es;
  }

  /** Once every piece has arrived since `.parts` was begun, closing puts exactly the original in place. */
  lemma {:induction false} ClosingPutsOriginal(u: Upload, files: Files, es: seq<Event>)
    requires u.plan.Valid() && u.Parts() !in files && u.AdmitsAll(es)
    requires |u.plan.original| <= u.maxSize
    requires CountAll(u, files, es).covered == u.plan.Indices()
    ensures var files' := u.After(files, es + [Closed(true, true)]);
            u.Parts() !in files' && Content(files', Join(u.dir, u.name)) == u.plan.original
            && Join(u.dir, u.name) in files'
  {
    RunKeepsInv(u, files, es);
    PathsDistinct(u.dir, u.name);
    assert (es + [Closed(true, true)])[..|es|] == es;
    assert 0 in u.plan.Indices();
    CoversAll(Content(u.After(files, es), u.Parts()), u.plan);
  }

  // ----- What a request leaves alone -----

  ghost predicate SameAt(a: Files, b: Files, p: Path) {
    (p in a <==> p in b) && (p in a ==> a[p] == b[p])
  }

  /** A part changes the two working files and no other. */
  lemma PartTouchesOnly(files: Files, dir: Path, name: string, part: Part, p: Path)
    requires p != PartsPath(dir, name) && p != RecordPath(dir, name)
    ensures SameAt(files, Store(files, dir, name, part).0, p)
  {
    hide WriteAt, WriteBuffers, PartsPath, RecordPath, Repeated;
  }

  /** The closing request would put `.parts` in place: it is there, not too large, and of an allowed type. */
  predicate Acceptable(files: Files, u: Upload, allowed: bool) {
    allowed && u.Parts() in files && |files[u.Parts()]| <= u.maxSize
  }

  /**
   * In every state: the closing request changes at most `.parts` and the file of the final name. The one is
   * gone afterwards exactly if the file system permitted it; the other is written exactly if the upload was
   * acceptable and permitted, and then holds what `.parts` held.
   */
  lemma ClosingExactly(files: Files, u: Upload, allowed: bool, permitted: bool, p: Path)
    ensures var r := Close(files, u.dir, u.name, u.maxSize, allowed, permitted);
            && (p != u.Parts() && p != Join(u.dir, u.name) ==> SameAt(files, r, p))
            && (u.Parts() in r <==> u.Parts() in files && !permitted)
            && (u.Parts() in r ==> r[u.Parts()] == files[u.Parts()])
            && (if Acceptable(files, u, allowed) && permitted
                then Join(u.dir, u.name) in r && r[Join(u.dir, u.name)] == files[u.Parts()]
                else SameAt(files, r, Join(u.dir, u.name)))
  {
    PathsDistinct(u.dir, u.name);
    hide PartsPath;
  }

  /** An event that may write the file of the final name. */
  predicate MayFinish(u: Upload, files: Files, e: Event) {
    match e
    case Received(_) => false
    case Closed(allowed, permitted) => Acceptable(files, u, allowed) && permitted
    case Elsewhere(path, _) => path == Join(u.dir, u.name)
  }

  /**
   * Whatever parts arrive, of whatever content and in whatever order: without an acceptable and permitted
   * closing and without a foreign change there, the file of the final name is what it was at the start.
   */
  lemma {:induction false} FinalNameKept(u: Upload, files: Files, es: seq<Event>)
    requires forall i :: 0 <= i < |es| ==> !MayFinish(u, u.After(files, es[..i]), es[i])
    ensures SameAt(files, u.After(files, es), Join(u.dir, u.name))
  {
    hide Store, Close, MayFinish;
    if es != [] {
      var n := |es| - 1;
      var before := u.After(files, es[..n]);
      assert forall i :: 0 <= i < n ==> es[..n][..i] == es[..i];
      FinalNameKept(u, files, es[..n]);
      EventKeepsFinal(u, before, es[n]);
    }
  }

  lemma EventKeepsFinal(u: Upload, files: Files, e: Event)
    requires !MayFinish(u, files, e)
    ensures SameAt(files, u.Next(files, e), Join(u.dir, u.name))
  {
    hide Store, Close;
    PathsDistinct(u.dir, u.name);
    match e
    case Received(part) => PartTouchesOnly(files, u.dir, u.name, part, Join(u.dir, u.name));
    case Closed(allowed, permitted) => ClosingExactly(files, u, allowed, permitted, Join(u.dir, u.name));
    case Elsewhere(_, _) =>
  }

  /** A part longer than announced is written up to and including the buffer that passes the length. */
  lemma {:induction false} OverlongPart(content: Bytes, pos: nat, buffers: seq<Bytes>, room: int, n: nat)
    requires n < |buffers| && |Concat(buffers[..n])| <= room < |Concat(buffers[..n + 1])|
    ensures WriteBuffers(content, pos, buffers, room) == WriteAt(content, pos, Concat(buffers[..n + 1]))
    decreases |buffers|
  {
    hide WriteAt;
    var a := buffers[0];
    assert buffers[..n + 1][0] == a && buffers[..n + 1][1..] == buffers[1..][..n];
    if n == 0 {
      assert buffers[..0] == [] && Concat(buffers[1..][..0]) == [];
      assert Concat(buffers[..1]) == a + [] == a;
    } else {
      assert buffers[..n][0] == a && buffers[..n][1..] == buffers[1..][..n - 1];
      OverlongPart(WriteAt(content, pos, a), pos + |a|, buffers[1..], room - |a|, n - 1);
      WriteTwice(content, pos, a, Concat(buffers[1..][..n]));
    }
  }

  /** Two parts of a three-byte file, the second first: the working files in between and after the end. */
  lemma OutOfOrderUpload()
    ensures var first := Part(0, 1, 0, 2, 3, [[7, 8]]);
            var second := Part(1, 1, 2, 1, 3, [[9]]);
            var (files1, merged1) := Store(map[], "/d", "f", second);
            var (files2, merged2) := Store(files1, "/d", "f", first);
            && files1 == map["/d/f.parts" := [0, 0, 9], "/d/.f.txt" := [0, 88]] && !merged1
            && files2 == map["/d/f.parts" := [7, 8, 9]] && merged2
            && Close(files2, "/d", "f", 3, true, true) == map["/d/f" := [7, 8, 9]]
  {
    var first, second := Part(0, 1, 0, 2, 3, [[7, 8]]), Part(1, 1, 2, 1, 3, [[9]]);
    assert PartsPath("/d", "f") == "/d/f.parts" && RecordPath("/d", "f") == "/d/.f.txt" && Join("/d", "f") == "/d/f";
    PathsDistinct("/d", "f");
    hide PartsPath, RecordPath, Join;
    OneBuffer([], 2, [9], 1);
    OneBuffer([0, 0, 9], 0, [7, 8], 2);
    assert WriteAt([], 2, [9]) == [0, 0, 9] && WriteAt([0, 0, 9], 0, [7, 8]) == [7, 8, 9];
    assert WriteAt([], 1, [MARK]) == [0, 88] && WriteAt([0, 88], 0, [MARK]) == [88, 88] == Repeated(MARK, 2);
    assert [0, 88] != Repeated(MARK, 2) by { assert Repeated(MARK, 2)[0] == 88; }
    hide WriteAt, WriteBuffers, Repeated;
  }

  lemma {:induction false} OneBuffer(content: Bytes, pos: nat, data: Bytes, room: int)
    requires |data| <= room
    ensures WriteBuffers(content, pos, [data], room) == WriteAt(content, pos, data)
  {
    hide WriteAt;
    assert [data][1..] == [];
    assert WriteBuffers(WriteAt(content, pos, data), pos + |data|, [], room - |data|) == WriteAt(content, pos, data);
  }

  // ----- Each piece once, in any order -----

  predicate EachOnce(es: seq<Event>) {
    && (forall i :: 0 <= i < |es| ==> es[i].Received?)
    && (forall i, j :: 0 <= i < j < |es| ==> es[i].part.index != es[j].part.index)
  }

  function IndicesOf(es: seq<Event>): (r: set<nat>)
    requires forall i :: 0 <= i < |es| ==> es[i].Received?
    ensures forall x :: x in r ==> exists i :: 0 <= i < |es| && es[i].part.index == x
  {
    if es == [] then {} else IndicesOf(es[..|es| - 1]) + {es[|es| - 1].part.index}
  }

  lemma IndexAdmitted(u: Upload, e: Event)
    requires u.Admits(e) && e.Received?
    ensures e.part.index in u.plan.Indices()
  {
  }

  lemma {:induction false} OnceCount(u: Upload, files: Files, es: seq<Event>)
    requires u.plan.Valid() && u.AdmitsAll(es) && EachOnce(es) && |es| <= |u.plan.pieces|
    ensures |IndicesOf(es)| == |es| && IndicesOf(es) <= u.plan.Indices()
    ensures |es| == |u.plan.pieces| <==> IndicesOf(es) == u.plan.Indices()
    ensures |es| < |u.plan.pieces| ==> CountAll(u, files, es).since == IndicesOf(es)
  {
    hide Plan.Carries, Plan.Valid;
    if es != [] {
      var before, last := es[..|es| - 1], es[|es| - 1];
      OnceCount(u, files, before);
      IndexAdmitted(u, last);
      assert last.part.index !in IndicesOf(before);
      assert IndicesOf(es) == IndicesOf(before) + {last.part.index};
    }
    if |es| == |u.plan.pieces| {
      SameSize(IndicesOf(es), u.plan.Indices());
    }
  }

  lemma SameSize(a: set<nat>, b: set<nat>)
    requires a <= b && |a| == |b|
    ensures a == b
  {
    assert b == a + (b - a);
    assert |b| == |a| + |b - a|;
  }

  /** When every piece arrives once, in any order, only the last one is reported merged. */
  lemma {:induction false} AnyOrderMergesAtTheLast(u: Upload, files: Files, es: seq<Event>)
    requires u.plan.Valid() && u.Parts() !in files && u.AdmitsAll(es) && EachOnce(es)
    requires 0 < |es| <= |u.plan.pieces|
    ensures Store(u.After(files, es[..|es| - 1]), u.dir, u.name, es[|es| - 1].part).1
            <==> |es| == |u.plan.pieces|
  {
    var before, last := es[..|es| - 1], es[|es| - 1];
    assert u.Admits(last) && EachOnce(before);
    OnceCount(u, files, before);
    OnceCount(u, files, es);
    MergedExactlyWhenComplete(u, files, before, last.part);
  }
}
