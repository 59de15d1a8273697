/** Records with blank bodies, and two logs the block-skipping query gets wrong. */
module LsfSamples {
  import opened Wrappers
  import opened LsfReader
  import opened LsfEvents
  import opened LsfRecords
  import opened LsfQuery

  // ----- A record for every time -----

  function BlankSkip(s: Skip): SkipData {
    if s.Fixed? then FixedData(TextField("0.0")) else CountedData([])
  }

  function BlankSkips(ss: seq<Skip>): seq<SkipData> {
    seq(|ss|, i requires 0 <= i < |ss| => BlankSkip(ss[i]))
  }

  function BlankData(p: Policy): PolicyData {
    match p
    case IntPolicy(_, skips) => IntData(BlankSkips(skips), 0)
    case StrPolicy(_, skips) => StrData(BlankSkips(skips), "")
    case TuplePolicy(_, skips) => TupleData(BlankSkips(skips), [])
  }

  function BlankBody(ps: seq<Policy>): seq<PolicyData> {
    seq(|ps|, i requires 0 <= i < |ps| => BlankData(ps[i]))
  }

  function HeaderAt(time: int): seq<PolicyData> {
    [StrData([], "JOB_FINISH"), StrData([], SUPPORT_LSF_VERSION), IntData([], time)]
  }

  function LineAt(time: int): string {
    RecordLine(HeaderAt(time), BlankBody(JobFinishPolicies()), "\n")
  }

  lemma ReadableConcat(a: seq<Field>, b: seq<Field>)
    requires AllReadable(a) && AllReadable(b)
    ensures AllReadable(a + b)
  {
    hide Readable;
  }

  lemma {:induction false} BlankSkipsReadable(ss: seq<Skip>)
    ensures AllReadable(SkipsFields(BlankSkips(ss)))
  {
    if ss != [] {
      var ds := BlankSkips(ss);
      assert ds[1..] == BlankSkips(ss[1..]) && ds[0] == BlankSkip(ss[0]);
      BlankSkipsReadable(ss[1..]);
      ReadableConcat(SkipFieldsOf(ds[0]), SkipsFields(ds[1..]));
    }
  }

  lemma {:induction false} BlankReadable(ps: seq<Policy>)
    ensures AllReadable(RecordFields(BlankBody(ps)))
  {
    if ps != [] {
      var ds := BlankBody(ps);
      assert ds[1..] == BlankBody(ps[1..]) && ds[0] == BlankData(ps[0]);
      BlankReadable(ps[1..]);
      BlankSkipsReadable(ps[0].skips);
      ReadableConcat(SkipsFields(ds[0].skips), ValueFields(ds[0]));
      ReadableConcat(SkipsFields(ds[0].skips) + ValueFields(ds[0]), RecordFields(ds[1..]));
    }
  }

  lemma BlankMatches(p: Policy)
    requires p.Valid()
    ensures Matches(p, BlankData(p))
  {
    forall i | 0 <= i < |p.skips|
      ensures SkipMatches(p.skips[i], BlankSkips(p.skips)[i])
    {
    }
  }

  lemma HeaderPrinted(time: int)
    ensures AllMatch(HEADER_POLICIES, HeaderAt(time)) && AllReadable(RecordFields(HeaderAt(time)))
  {
    var ds := HeaderAt(time);
    assert RecordFields(ds[3..]) == [];
    assert RecordFields(ds[2..]) == [IntField(time)];
    assert RecordFields(ds[1..]) == [StrField(SUPPORT_LSF_VERSION), IntField(time)];
    assert RecordFields(ds) == [StrField("JOB_FINISH"), StrField(SUPPORT_LSF_VERSION), IntField(time)];
  }

  lemma {:induction false} DoubleNothing(s: string)
    requires '"' !in s
    ensures Double(s) == s
  {
    if s != [] {
      DoubleNothing(s[..|s| - 1]);
    }
  }

  lemma RecordPrinted(time: int)
    ensures PrintedRecord(HeaderAt(time), BlankBody(JobFinishPolicies()))
  {
    hide JobFinishPolicies, BlankData, Matches, Readable;
    var ps := JobFinishPolicies();
    forall i | 0 <= i < |ps|
      ensures Matches(ps[i], BlankBody(ps)[i])
    {
      BlankMatches(ps[i]);
    }
    HeaderPrinted(time);
    BlankReadable(ps);
    ReadableConcat(RecordFields(HeaderAt(time)), RecordFields(BlankBody(ps)));
  }

  /** The header alone of such a record, as the query reads it. */
  lemma HeaderOfLine(time: int)
    ensures HeaderReadable(LineAt(time)) && EventTime(LineAt(time)) == time
    ensures Text(ParseHeader(LineAt(time)).value.1, "event_type") == "JOB_FINISH"
  {
    hide JobFinishPolicies, ParseAll, SetAll, AllMatch, AllReadable, RecordFields, Double, Here, RecordLine;
    var header, body := HeaderAt(time), BlankBody(JobFinishPolicies());
    RecordPrinted(time);
    HeaderPrinted(time);
    HeaderReads(header, body, "\n");
    HeaderHolds(header);
    DoubleNothing(SUPPORT_LSF_VERSION);
    DoubleNothing("JOB_FINISH");
    var attrs := SetAll(HEADER_POLICIES, header, EVENT_DEFAULTS);
    assert AllHold(HEADER_POLICIES, header, attrs);
    assert Holds(HEADER_POLICIES[0], header[0], attrs) && Holds(HEADER_POLICIES[2], header[2], attrs);
  }

  lemma SampleSelected(time: int, start: int, end: int)
    ensures Selected(LineAt(time), start, end) <==> start <= time <= end
  {
    hide JobFinishPolicies, ParseAll, ParseHeader, ParseJobFinish, SetAll, AllMatch, AllReadable, RecordFields, Double, Here,
         RecordLine, AllHold;
    RecordPrinted(time);
    HeaderOfLine(time);
    DoubleNothing(SUPPORT_LSF_VERSION);
    JobFinishRoundTrip(HeaderAt(time), BlankBody(JobFinishPolicies()), "\n");
  }

  // ----- Two logs -----

  lemma {:induction false} FilterOfTwo(a: string, b: string, start: int, end: int)
    ensures |PlainFilter([a, b], start, end)|
         == (if Selected(a, start, end) then 1 else 0) + if Selected(b, start, end) then 1 else 0
  {
    hide Selected, ParseJobFinish, ParseHeader;
    assert PlainFilter([], start, end) == [];
    assert [a, b][1..] == [b] && [b][1..] == [];
    assert |PlainFilter([b], start, end)| == if Selected(b, start, end) then 1 else 0;
  }

  /** Two records out of order: the query for the earlier time answers nothing, the file holds an event. */
  lemma {:induction false} UnorderedBlockIsDropped(early: int, late: int)
    requires early < late
    ensures Query([LineAt(late), LineAt(early)], early, early) == Ok([])
    ensures |PlainFilter([LineAt(late), LineAt(early)], early, early)| == 1
  {
    hide LineAt, ParseHeader, ParseJobFinish, Selected, PlainFilter;
    HeaderOfLine(late);
    HeaderOfLine(early);
    SampleSelected(late, early, early);
    SampleSelected(early, early, early);
    FilterOfTwo(LineAt(late), LineAt(early), early, early);
  }

  lemma EmptyLineHasNoHeader()
    ensures ParseHeader("\n") == Err(NoField("event_type"))
  {
    assert ReadField("\n", 0) == None;
    assert SkipAll("\n", 0, []) == Ok(0);
  }

  /** One empty line at the beginning of a log: the query raises, the file holds an event. */
  lemma {:induction false} EmptyFirstLineRaises(time: int)
    ensures Query(["\n", LineAt(time)], time, time) == Err(NoField("event_type"))
    ensures |PlainFilter(["\n", LineAt(time)], time, time)| == 1
  {
    hide LineAt, ParseJobFinish, PlainFilter, ParseHeader;
    EmptyLineHasNoHeader();
    SampleSelected(time, time, time);
    FilterOfTwo("\n", LineAt(time), time, time);
  }
}
