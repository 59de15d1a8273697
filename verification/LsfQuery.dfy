/** The time query over an accounting log, which skips whole blocks of lines by their first and last times. */
module LsfQuery {
  import opened Wrappers
  import opened LsfReader
  import opened LsfEvents

  const MAX_LINE_CACHE_SIZE: nat := 5000

  /** A full block: the cache, plus the line that arrives while it is full. */
  const BLOCK := MAX_LINE_CACHE_SIZE + 1

  predicate HeaderReadable(line: string) {
    ParseHeader(line).Ok?
  }

  /** The time in the header, zero if that is unreadable. */
  function EventTime(line: string): int {
    match ParseHeader(line)
    case Err(_) => 0
    case Ok((_, attrs)) => Number(attrs, "event_time")
  }

  // ----- The plain filter -----

  predicate Selected(line: string, start: int, end: int) {
    && HeaderReadable(line)
    && start <= EventTime(line) <= end
    && Text(ParseHeader(line).value.1, "event_type") == "JOB_FINISH"
    && ParseJobFinish(line).Ok?
  }

  /** The parseable job-finish events in the time range, in file order, each line once. */
  function PlainFilter(lines: seq<string>, start: int, end: int): seq<Attrs> {
    if lines == [] then []
    else (if Selected(lines[0], start, end) then [ParseJobFinish(lines[0]).value] else [])
         + PlainFilter(lines[1..], start, end)
  }

  // ----- The query -----

  function BlockEvents(lines: seq<string>, start: int, end: int): Result<seq<Attrs>, AcctError> {
    if lines == [] then Ok([])
    else
      var first, last := lines[0], lines[|lines| - 1];
      match ParseHeader(first)
      case Err(e) => Err(e)
      case Ok(_) =>
        match ParseHeader(last)
        case Err(e) => Err(e)
        case Ok(_) =>
          if EventTime(first) > end || EventTime(last) < start then Ok([])
          else Ok(PlainFilter(lines, start, end))
  }

  function Query(lines: seq<string>, start: int, end: int): Result<seq<Attrs>, AcctError>
    decreases |lines|
  {
    if |lines| < BLOCK then BlockEvents(lines, start, end)
    else
      match BlockEvents(lines[..BLOCK], start, end)
      case Err(e) => Err(e)
      case Ok(events) =>
        match Query(lines[BLOCK..], start, end)
        case Err(e) => Err(e)
        case Ok(more) => Ok(events + more)
  }

  method ParseEventsFromLines(lines: seq<string>, start: int, end: int)
    returns (res: Result<seq<Attrs>, AcctError>)
    ensures res == BlockEvents(lines, start, end)
  {
    hide ParseHeader, ParseJobFinish;
    if |lines| <= 0 {
      return Ok([]);
    }
    var reader := new LSBAcctLineReader(lines[0]);
    var beginEvent := NewEvent(reader);
    if beginEvent.Err? {
      return Err(beginEvent.error);
    }
    reader := new LSBAcctLineReader(lines[|lines| - 1]);
    var endEvent := NewEvent(reader);
    if endEvent.Err? {
      return Err(endEvent.error);
    }
    if Number(beginEvent.value, "event_time") > end || Number(endEvent.value, "event_time") < start {
      return Ok([]);
    }
    var events := [];
    assert lines[0..] == lines && [] + PlainFilter(lines, start, end) == PlainFilter(lines, start, end);
    for i := 0 to |lines|
      invariant PlainFilter(lines, start, end) == events + PlainFilter(lines[i..], start, end)
    {
      assert lines[i..][1..] == lines[i + 1..];
      var found := ParseLine(lines[i], start, end);
      events := events + found;
    }
    assert events + PlainFilter(lines[|lines|..], start, end) == events;
    return Ok(events);
  }

  /** The body of the line loop: any exception of a line is caught and the line dropped. */
  method ParseLine(line: string, start: int, end: int) returns (events: seq<Attrs>)
    ensures events == if Selected(line, start, end) then [ParseJobFinish(line).value] else []
  {
    hide ParseHeader, ParseJobFinish;
    var reader := new LSBAcctLineReader(line);
    var baseEvent := NewEvent(reader);
    if baseEvent.Ok? && start <= Number(baseEvent.value, "event_time") <= end
       && Text(baseEvent.value, "event_type") == "JOB_FINISH" {
      var event := NewJobFinishEvent(reader);
      if event.Ok? {
        return [event.value];
      }
    }
    return [];
  }

  method QueryEventsByTime(lines: seq<string>, start: int, end: int)
    returns (res: Result<seq<Attrs>, AcctError>)
    ensures res == Query(lines, start, end)
  {
    hide BlockEvents;
    var result, cache, next := [], [], 0;
    assert lines[0..] == lines;
    assert Query(lines, start, end).Ok? ==> [] + Query(lines, start, end).value == Query(lines, start, end).value;
    while next < |lines|
      invariant 0 <= next <= |lines| && |cache| <= MAX_LINE_CACHE_SIZE && |cache| <= next
      invariant cache == lines[next - |cache|..next]
      invariant Query(lines, start, end)
             == (match Query(lines[next - |cache|..], start, end)
                 case Err(e) => Err(e)
                 case Ok(more) => Ok(result + more))
    {
      ghost var left := lines[next - |cache|..];
      var line := lines[next];
      next := next + 1;
      if |cache| < MAX_LINE_CACHE_SIZE {
        cache := cache + [line];
      } else {
        cache := cache + [line];
        assert cache == left[..BLOCK];
        var events := ParseEventsFromLines(cache, start, end);
        if events.Err? {
          return events;
        }
        assert left[BLOCK..] == lines[next..];
        ghost var rest := Query(lines[next..], start, end);
        if rest.Ok? {
          assert result + (events.value + rest.value) == result + events.value + rest.value;
        }
        result := result + events.value;
        cache := [];
      }
    }
    assert cache == lines[next - |cache|..];
    var events := ParseEventsFromLines(cache, start, end);
    return if events.Err? then events else Ok(result + events.value);
  }

  // ----- Block skipping refines the plain filter -----

  /** Lines the query reads outside its exception handler: the first and last of every block. */
  predicate IsBoundary(lines: seq<string>, i: int) {
    0 <= i < |lines| && (i % 5001 == 0 || i % 5001 == 5000 || i == |lines| - 1)
  }

  predicate TimesNondecreasing(lines: seq<string>) {
    forall i, j :: 0 <= i < j < |lines| && HeaderReadable(lines[i]) && HeaderReadable(lines[j])
      ==> EventTime(lines[i]) <= EventTime(lines[j])
  }

  lemma {:induction false} FilterConcat(a: seq<string>, b: seq<string>, start: int, end: int)
    ensures PlainFilter(a + b, start, end) == PlainFilter(a, start, end) + PlainFilter(b, start, end)
  {
    hide HeaderReadable, EventTime, ParseJobFinish;
    if a == [] {
      assert a + b == b;
    } else {
      assert (a + b)[1..] == a[1..] + b;
      FilterConcat(a[1..], b, start, end);
    }
  }

  lemma {:induction false} NothingSelected(lines: seq<string>, start: int, end: int)
    requires forall i :: 0 <= i < |lines| ==> !Selected(lines[i], start, end)
    ensures PlainFilter(lines, start, end) == []
  {
    hide HeaderReadable, EventTime, ParseJobFinish;
    if lines != [] {
      forall i | 0 <= i < |lines[1..]|
        ensures !Selected(lines[1..][i], start, end)
      {
        assert lines[1..][i] == lines[i + 1];
      }
      NothingSelected(lines[1..], start, end);
    }
  }

  lemma {:induction false} BlockRefinesFilter(lines: seq<string>, start: int, end: int)
    requires lines != [] ==> HeaderReadable(lines[0]) && HeaderReadable(lines[|lines| - 1])
    requires TimesNondecreasing(lines)
    ensures BlockEvents(lines, start, end) == Ok(PlainFilter(lines, start, end))
  {
    hide ParseHeader, ParseJobFinish;
    if lines != [] && (EventTime(lines[0]) > end || EventTime(lines[|lines| - 1]) < start) {
      forall i | 0 <= i < |lines|
        ensures !Selected(lines[i], start, end)
      {
        if HeaderReadable(lines[i]) {
          assert 0 < i ==> EventTime(lines[0]) <= EventTime(lines[i]);
          assert i < |lines| - 1 ==> EventTime(lines[i]) <= EventTime(lines[|lines| - 1]);
        }
      }
      NothingSelected(lines, start, end);
    }
  }

  lemma BoundariesOfRest(lines: seq<string>, i: nat)
    requires |lines| >= BLOCK && i < |lines| - BLOCK
    ensures lines[BLOCK..][i] == lines[i + BLOCK]
    ensures IsBoundary(lines[BLOCK..], i) <==> IsBoundary(lines, i + BLOCK)
  {
    assert (i + BLOCK) % BLOCK == i % BLOCK;
  }

  lemma BoundariesOfBlock(lines: seq<string>)
    requires |lines| >= BLOCK
    ensures forall i :: 0 <= i < BLOCK ==> (IsBoundary(lines, i) <==> i == 0 || i == BLOCK - 1)
  {
    assert forall i :: 0 <= i < BLOCK ==> i % BLOCK == i;
  }

  lemma BlockFails(lines: seq<string>, start: int, end: int)
    ensures BlockEvents(lines, start, end).Err?
            <==> lines != [] && !(HeaderReadable(lines[0]) && HeaderReadable(lines[|lines| - 1]))
  {
    hide ParseHeader;
  }

  /** The query raises exactly when some block begins or ends with an unreadable header. */
  lemma {:induction false} QueryFailsAtBoundaries(lines: seq<string>, start: int, end: int)
    ensures Query(lines, start, end).Err?
            <==> exists i :: IsBoundary(lines, i) && !HeaderReadable(lines[i])
    decreases |lines|
  {
    hide HeaderReadable, BlockEvents;
    if |lines| < BLOCK {
      BlockFails(lines, start, end);
      if lines != [] {
        assert IsBoundary(lines, 0) && IsBoundary(lines, |lines| - 1);
        assert forall i :: IsBoundary(lines, i) ==> i == 0 || i == |lines| - 1;
      }
    } else {
      var block, rest := lines[..BLOCK], lines[BLOCK..];
      BlockFails(block, start, end);
      QueryFailsAtBoundaries(rest, start, end);
      BoundariesOfBlock(lines);
      assert block[0] == lines[0] && block[|block| - 1] == lines[BLOCK - 1];
      if i :| IsBoundary(rest, i) && !HeaderReadable(rest[i]) {
        BoundariesOfRest(lines, i);
        assert IsBoundary(lines, i + BLOCK) && !HeaderReadable(lines[i + BLOCK]);
      }
      if i :| IsBoundary(lines, i) && !HeaderReadable(lines[i]) {
        if i >= BLOCK {
          BoundariesOfRest(lines, i - BLOCK);
        } else {
          BoundariesOfBlock(lines);
        }
      }
    }
  }

  /**
   * On a log whose readable times never decrease, and whose block boundaries are readable,
   * skipping blocks changes nothing: the result is the plain filter of the whole file.
   */
  lemma {:induction false} QueryRefinesFilter(lines: seq<string>, start: int, end: int)
    requires TimesNondecreasing(lines)
    requires forall i :: IsBoundary(lines, i) ==> HeaderReadable(lines[i])
    ensures Query(lines, start, end) == Ok(PlainFilter(lines, start, end))
    decreases |lines|
  {
    hide HeaderReadable, BlockEvents, EventTime, PlainFilter;
    if |lines| < BLOCK {
      assert lines != [] ==> IsBoundary(lines, 0) && IsBoundary(lines, |lines| - 1);
      BlockRefinesFilter(lines, start, end);
    } else {
      var block, rest := lines[..BLOCK], lines[BLOCK..];
      assert IsBoundary(lines, 0) && IsBoundary(lines, BLOCK - 1);
      assert TimesNondecreasing(block) && TimesNondecreasing(rest);
      BlockRefinesFilter(block, start, end);
      forall i | IsBoundary(rest, i)
        ensures HeaderReadable(rest[i])
      {
        BoundariesOfRest(lines, i);
      }
      QueryRefinesFilter(rest, start, end);
      assert lines == block + rest;
      FilterConcat(block, rest, start, end);
    }
  }

  // ----- When skipping blocks changes nothing -----

  /** The times at the ends let the block be passed over. */
  predicate Skipped(block: seq<string>, start: int, end: int)
    requires block != []
  {
    EventTime(block[0]) > end || EventTime(block[|block| - 1]) < start
  }

  /** Both ends can be read, and if the block is skipped it holds no selected line. */
  predicate BlockFine(block: seq<string>, start: int, end: int) {
    block != [] ==>
      && HeaderReadable(block[0]) && HeaderReadable(block[|block| - 1])
      && (Skipped(block, start, end) ==> forall i :: 0 <= i < |block| ==> !Selected(block[i], start, end))
  }

  /** The k-th block of a log; only the last may be short, and then it may be empty. */
  function Block(lines: seq<string>, k: nat): seq<string>
    requires k * BLOCK <= |lines|
  {
    lines[k * BLOCK..Min(|lines|, k * BLOCK + BLOCK)]
  }

  ghost predicate BlocksFine(lines: seq<string>, start: int, end: int) {
    forall k: nat :: k * BLOCK <= |lines| ==> BlockFine(Block(lines, k), start, end)
  }

  lemma {:induction false} SomethingSelected(lines: seq<string>, start: int, end: int, i: nat)
    requires i < |lines|
    ensures Selected(lines[i], start, end) ==> PlainFilter(lines, start, end) != []
  {
    hide HeaderReadable, EventTime, ParseJobFinish;
    if i > 0 {
      SomethingSelected(lines[1..], start, end, i - 1);
    }
  }

  /** One block gives no more than the filter, and all of it exactly when it is fine. */
  lemma {:induction false} BlockAtMost(block: seq<string>, start: int, end: int)
    ensures BlockEvents(block, start, end).Ok? ==>
              |BlockEvents(block, start, end).value| <= |PlainFilter(block, start, end)|
    ensures BlockEvents(block, start, end) == Ok(PlainFilter(block, start, end)) <==> BlockFine(block, start, end)
    ensures BlockEvents(block, start, end).Ok? && !BlockFine(block, start, end) ==>
              |BlockEvents(block, start, end).value| < |PlainFilter(block, start, end)|
  {
    hide ParseHeader, ParseJobFinish, Selected;
    if forall i :: 0 <= i < |block| ==> !Selected(block[i], start, end) {
      NothingSelected(block, start, end);
    } else {
      var i :| 0 <= i < |block| && Selected(block[i], start, end);
      SomethingSelected(block, start, end, i);
    }
    hide PlainFilter;
  }

  lemma FirstBlock(lines: seq<string>, start: int, end: int)
    ensures |lines| < BLOCK ==> (BlocksFine(lines, start, end) <==> BlockFine(lines, start, end))
    ensures |lines| >= BLOCK ==>
              (BlocksFine(lines, start, end)
               <==> BlockFine(lines[..BLOCK], start, end) && BlocksFine(lines[BLOCK..], start, end))
  {
    hide BlockFine;
    assert Block(lines, 0) == lines[..Min(|lines|, BLOCK)];
    if |lines| < BLOCK {
      assert lines[..|lines|] == lines;
      assert forall k: nat :: k * BLOCK <= |lines| ==> k == 0;
    } else {
      var rest := lines[BLOCK..];
      forall k: nat | k * BLOCK <= |rest|
        ensures (k + 1) * BLOCK <= |lines| && Block(rest, k) == Block(lines, k + 1)
      {
        assert (k + 1) * BLOCK == k * BLOCK + BLOCK;
      }
      if BlockFine(lines[..BLOCK], start, end) && BlocksFine(rest, start, end) {
        forall k: nat | k * BLOCK <= |lines|
          ensures BlockFine(Block(lines, k), start, end)
        {
          if k > 0 {
            assert (k - 1) * BLOCK <= |rest|;
            assert Block(rest, k - 1) == Block(lines, k - 1 + 1);
          }
        }
      }
    }
  }

  /** The query never answers more than the filter, and less as soon as one block is not fine. */
  lemma {:induction false} QueryAtMost(lines: seq<string>, start: int, end: int)
    ensures Query(lines, start, end) == Ok(PlainFilter(lines, start, end)) <==> BlocksFine(lines, start, end)
    ensures Query(lines, start, end).Ok? ==> |Query(lines, start, end).value| <= |PlainFilter(lines, start, end)|
    ensures Query(lines, start, end).Ok? && !BlocksFine(lines, start, end) ==>
              |Query(lines, start, end).value| < |PlainFilter(lines, start, end)|
    decreases |lines|
  {
    hide BlockEvents, BlockFine, BlocksFine, PlainFilter;
    FirstBlock(lines, start, end);
    if |lines| < BLOCK {
      BlockAtMost(lines, start, end);
    } else {
      var block, rest := lines[..BLOCK], lines[BLOCK..];
      BlockAtMost(block, start, end);
      QueryAtMost(rest, start, end);
      assert lines == block + rest;
      FilterConcat(block, rest, start, end);
    }
  }

  /**
   * On any log at all, ordered or not, the query answers the plain filter of the file exactly when every
   * block has readable ends and, if it is skipped, holds no selected line.
   */
  lemma {:induction false} QueryIsFilterExactly(lines: seq<string>, start: int, end: int)
    ensures Query(lines, start, end) == Ok(PlainFilter(lines, start, end))
            <==> forall k: nat :: k * BLOCK <= |lines| ==> BlockFine(Block(lines, k), start, end)
  {
    QueryAtMost(lines, start, end);
  }
}
