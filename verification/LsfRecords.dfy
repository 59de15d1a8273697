/** Records printed to match a policy list, and the proof that parsing recovers what was printed. */
module LsfRecords {
  import opened Wrappers
  import opened Decimals
  import opened LsfReader
  import opened LsfEvents

  // ----- What is printed -----

  datatype SkipData = FixedData(f: Field) | CountedData(rows: seq<seq<Field>>)

  datatype PolicyData =
    | IntData(skips: seq<SkipData>, n: int)
    | StrData(skips: seq<SkipData>, s: string)
    | TupleData(skips: seq<SkipData>, rows: seq<seq<string>>)

  predicate SkipMatches(s: Skip, d: SkipData) {
    match s
    case Fixed(_) => d.FixedData?
    case Counted(names) => d.CountedData? && |names| >= 1 && forall i :: 0 <= i < |d.rows| ==> |d.rows[i]| == |names| - 1
  }

  predicate SkipsMatch(ss: seq<Skip>, ds: seq<SkipData>) {
    |ss| == |ds| && forall i :: 0 <= i < |ss| ==> SkipMatches(ss[i], ds[i])
  }

  predicate Matches(p: Policy, d: PolicyData) {
    && p.Valid() && SkipsMatch(p.skips, d.skips)
    && match p
       case IntPolicy(_, _) => d.IntData?
       case StrPolicy(_, _) => d.StrData?
       case TuplePolicy(names, _) =>
         d.TupleData? && forall i :: 0 <= i < |d.rows| ==> |d.rows[i]| == |names| - 1
  }

  predicate AllMatch(ps: seq<Policy>, ds: seq<PolicyData>) {
    |ps| == |ds| && forall i :: 0 <= i < |ps| ==> Matches(ps[i], ds[i])
  }

  function Flatten<T>(rows: seq<seq<T>>): seq<T> {
    if rows == [] then [] else rows[0] + Flatten(rows[1..])
  }

  function SkipFieldsOf(d: SkipData): seq<Field> {
    match d
    case FixedData(f) => [f]
    case CountedData(rows) => [IntField(|rows|)] + Flatten(rows)
  }

  function SkipsFields(ds: seq<SkipData>): seq<Field> {
    if ds == [] then [] else SkipFieldsOf(ds[0]) + SkipsFields(ds[1..])
  }

  function StrFields(ss: seq<string>): seq<Field> {
    seq(|ss|, i requires 0 <= i < |ss| => StrField(ss[i]))
  }

  function ValueFields(d: PolicyData): seq<Field> {
    match d
    case IntData(_, n) => [IntField(n)]
    case StrData(_, s) => [StrField(s)]
    case TupleData(_, rows) => [IntField(|rows|)] + StrFields(Flatten(rows))
  }

  function RecordFields(ds: seq<PolicyData>): seq<Field> {
    if ds == [] then []
    else (SkipsFields(ds[0].skips) + ValueFields(ds[0])) + RecordFields(ds[1..])
  }

  // ----- What has to be recovered -----

  function Doubled(ss: seq<string>): seq<string> {
    seq(|ss|, i requires 0 <= i < |ss| => Double(ss[i]))
  }

  /** The attributes one policy sets; a scalar policy also resets the attribute with the empty name. */
  function SetAttrs(p: Policy, d: PolicyData, attrs: Attrs): Attrs
    requires Matches(p, d)
  {
    match p
    case IntPolicy(name, _) => attrs[name := IntV(d.n)]["" := Hosts({})]
    case StrPolicy(name, _) => attrs[name := StrV(Double(d.s))]["" := Hosts({})]
    case TuplePolicy(names, _) =>
      attrs[names[0] := IntV(|d.rows|)][names[1] := Hosts(Elements(Doubled(Flatten(d.rows))))]
  }

  function SetAll(ps: seq<Policy>, ds: seq<PolicyData>, attrs: Attrs): Attrs
    requires AllMatch(ps, ds)
  {
    if ps == [] then attrs else SetAll(ps[1..], ds[1..], SetAttrs(ps[0], ds[0], attrs))
  }

  // ----- Reading along printed fields -----

  /** The fields `fs` are printed at `offset`, at a field boundary, and every one can be read. */
  predicate Here(line: string, offset: nat, fs: seq<Field>) {
    FieldStart(line, offset) && At(line, offset, RenderAll(fs)) && AllReadable(fs)
  }

  function End(offset: nat, fs: seq<Field>): nat {
    offset + |RenderAll(fs)|
  }

  lemma {:induction false} RenderAllConcat(a: seq<Field>, b: seq<Field>)
    ensures RenderAll(a + b) == RenderAll(a) + RenderAll(b)
  {
    if a == [] {
      assert a + b == b;
    } else {
      assert (a + b)[1..] == a[1..] + b;
      RenderAllConcat(a[1..], b);
    }
  }

  lemma {:induction false} RenderedEnd(line: string, offset: nat, fs: seq<Field>)
    requires Here(line, offset, fs)
    ensures FieldStart(line, End(offset, fs))
    decreases |fs|
  {
    if fs != [] {
      HereHead(line, offset, fs);
      RenderedEnd(line, End(offset, fs[..1]), fs[1..]);
    }
  }

  /** The first printed field is what the next read returns, and the rest stands behind it. */
  lemma HereHead(line: string, offset: nat, fs: seq<Field>)
    requires Here(line, offset, fs) && fs != []
    ensures ReadField(line, offset) == Some((Raw(fs[0]), End(offset, fs[..1])))
    ensures Here(line, End(offset, fs[..1]), fs[1..])
    ensures End(End(offset, fs[..1]), fs[1..]) == End(offset, fs)
  {
    hide At, ReadField, Readable;
    assert fs == fs[..1] + fs[1..];
    RenderAllConcat(fs[..1], fs[1..]);
    var next := HeadReadBack(line, offset, fs);
    AllReadableCons(fs[0], fs[1..]);
    assert fs == [fs[0]] + fs[1..];
  }

  lemma HereConcat(line: string, offset: nat, a: seq<Field>, b: seq<Field>)
    requires Here(line, offset, a + b)
    ensures Here(line, offset, a) && Here(line, End(offset, a), b)
    ensures End(End(offset, a), b) == End(offset, a + b)
  {
    RenderAllConcat(a, b);
    AtConcat(line, offset, RenderAll(a), RenderAll(b));
    assert AllReadable(a) by {
      assert forall i :: 0 <= i < |a| ==> a[i] == (a + b)[i];
    }
    assert AllReadable(b) by {
      assert forall i :: 0 <= i < |b| ==> b[i] == (a + b)[|a| + i];
    }
    RenderedEnd(line, offset, a);
  }

  // ----- Skips consume exactly the fields they name -----

  lemma {:induction false} SkipRowReads(line: string, offset: nat, names: seq<string>, idx: nat, k: nat, row: seq<Field>)
    requires |names| == k + |row| + 1 && Here(line, offset, row)
    ensures SkipRow(line, offset, names, idx, k) == Ok(End(offset, row))
    decreases |row|
  {
    hide At, ReadField, Raw, AllReadable, RowName;
    if row != [] {
      HereHead(line, offset, row);
      SkipRowReads(line, End(offset, row[..1]), names, idx, k + 1, row[1..]);
    }
  }

  lemma {:induction false} SkipRowsReads(line: string, offset: nat, names: seq<string>, idx: nat, rows: seq<seq<Field>>)
    requires |names| >= 1 && forall i :: 0 <= i < |rows| ==> |rows[i]| == |names| - 1
    requires Here(line, offset, Flatten(rows))
    ensures SkipRows(line, offset, names, idx, idx + |rows|) == Ok(End(offset, Flatten(rows)))
    decreases |rows|
  {
    hide At, ReadField, AllReadable, SkipRow;
    if rows != [] {
      HereConcat(line, offset, rows[0], Flatten(rows[1..]));
      SkipRowReads(line, offset, names, idx, 0, rows[0]);
      SkipRowsReads(line, End(offset, rows[0]), names, idx + 1, rows[1..]);
    }
  }

  lemma SkipOneReads(line: string, offset: nat, s: Skip, d: SkipData)
    requires SkipMatches(s, d) && Here(line, offset, SkipFieldsOf(d))
    ensures SkipOne(line, offset, s) == Ok(End(offset, SkipFieldsOf(d)))
  {
    hide At, ReadField, AllReadable, SkipRows, PyInt;
    var fs := SkipFieldsOf(d);
    HereHead(line, offset, fs);
    match s
    case Fixed(name) => assert fs[..1] == fs;
    case Counted(names) =>
      assert fs[1..] == Flatten(d.rows);
      PyIntPrintInt(|d.rows|);
      SkipRowsReads(line, End(offset, fs[..1]), names, 0, d.rows);
  }

  /** A list of skips, fixed and counted, moves over exactly the fields it names. */
  lemma {:induction false} SkipsRead(line: string, offset: nat, ss: seq<Skip>, ds: seq<SkipData>)
    requires SkipsMatch(ss, ds) && Here(line, offset, SkipsFields(ds))
    ensures SkipAll(line, offset, ss) == Ok(End(offset, SkipsFields(ds)))
    decreases |ss|
  {
    hide At, ReadField, AllReadable, SkipOne;
    if ss != [] {
      assert SkipMatches(ss[0], ds[0]);
      HereConcat(line, offset, SkipFieldsOf(ds[0]), SkipsFields(ds[1..]));
      SkipOneReads(line, offset, ss[0], ds[0]);
      SkipsRead(line, End(offset, SkipFieldsOf(ds[0])), ss[1..], ds[1..]);
    }
  }

  // ----- Values are recovered -----

  lemma {:induction false} QuotedRaw(s: string)
    ensures IsQuoted(Raw(StrField(s))) && Unquoted(Raw(StrField(s))) == Double(s)
  {
  }

  lemma HostsConcat(a: seq<string>, b: seq<string>, acc: seq<string>)
    ensures StrFields(a + b) == StrFields(a) + StrFields(b)
    ensures acc + Doubled(a) + Doubled(b) == acc + Doubled(a + b)
  {
    hide Double;
  }

  lemma NoHosts(offset: nat, acc: seq<string>)
    ensures acc + Doubled([]) == acc && End(offset, StrFields([])) == offset
  {
  }

  lemma {:induction false} HostRowReads(line: string, offset: nat, names: seq<string>, k: nat, row: seq<string>, acc: seq<string>)
    requires |names| >= 2 && |names| == k + |row| + 1 && Here(line, offset, StrFields(row))
    ensures ReadHostRow(line, offset, names, k, acc) == Ok((End(offset, StrFields(row)), acc + Doubled(row)))
    decreases |row|
  {
    hide Here, End, ReadField, IsQuoted, Raw, Double;
    if row == [] {
      NoHosts(offset, acc);
    } else {
      var fs := StrFields(row);
      HereHead(line, offset, fs);
      assert fs[1..] == StrFields(row[1..]);
      QuotedRaw(row[0]);
      HostRowReads(line, End(offset, fs[..1]), names, k + 1, row[1..], acc + [Double(row[0])]);
      assert [row[0]] + row[1..] == row && Doubled([row[0]]) == [Double(row[0])];
      HostsConcat([row[0]], row[1..], acc);
    }
  }

  lemma {:induction false} HostRowsRead(line: string, offset: nat, names: seq<string>, idx: nat, rows: seq<seq<string>>, acc: seq<string>)
    requires |names| >= 2 && forall i :: 0 <= i < |rows| ==> |rows[i]| == |names| - 1
    requires Here(line, offset, StrFields(Flatten(rows)))
    ensures ReadHostRows(line, offset, names, idx, idx + |rows|, acc)
         == Ok((End(offset, StrFields(Flatten(rows))), acc + Doubled(Flatten(rows))))
    decreases |rows|
  {
    hide Here, End, ReadHostRow, Doubled, StrFields;
    if rows == [] {
      NoHosts(offset, acc);
    } else {
      var a, b := rows[0], Flatten(rows[1..]);
      HostsConcat(a, b, acc);
      HereConcat(line, offset, StrFields(a), StrFields(b));
      HostRowReads(line, offset, names, 0, a, acc);
      HostRowsRead(line, End(offset, StrFields(a)), names, idx + 1, rows[1..], acc + Doubled(a));
    }
  }

  lemma ValueReads(line: string, offset: nat, attrs: Attrs, p: Policy, d: PolicyData)
    requires Matches(p, d) && Here(line, offset, ValueFields(d))
    ensures ParseValue(line, offset, attrs, p) == Ok((End(offset, ValueFields(d)), SetAttrs(p, d, attrs)))
  {
    hide At, ReadField, AllReadable, ReadHostRows, PyInt, IsQuoted;
    var fs := ValueFields(d);
    HereHead(line, offset, fs);
    match p
    case IntPolicy(name, _) => PyIntPrintInt(d.n); assert fs[..1] == fs;
    case StrPolicy(name, _) => QuotedRaw(d.s); assert fs[..1] == fs;
    case TuplePolicy(names, _) =>
      PyIntPrintInt(|d.rows|);
      assert fs[1..] == StrFields(Flatten(d.rows));
      HostRowsRead(line, End(offset, fs[..1]), names, 0, d.rows, []);
      assert [] + Doubled(Flatten(d.rows)) == Doubled(Flatten(d.rows));
  }

  /** Parsing printed fields by any policy list recovers every value and stops right behind them. */
  lemma {:induction false} PoliciesRead(line: string, offset: nat, attrs: Attrs, ps: seq<Policy>, ds: seq<PolicyData>)
    requires AllMatch(ps, ds) && ValidPolicies(ps) && Here(line, offset, RecordFields(ds))
    ensures ParseAll(line, offset, attrs, ps) == Ok((End(offset, RecordFields(ds)), SetAll(ps, ds, attrs)))
    decreases |ps|
  {
    hide At, ReadField, AllReadable, SkipAll, ParseValue, SetAttrs, ValueFields, SkipsFields;
    if ps != [] {
      assert Matches(ps[0], ds[0]);
      var skips, value := SkipsFields(ds[0].skips), ValueFields(ds[0]);
      HereConcat(line, offset, skips + value, RecordFields(ds[1..]));
      HereConcat(line, offset, skips, value);
      SkipsRead(line, offset, ps[0].skips, ds[0].skips);
      ValueReads(line, End(offset, skips), attrs, ps[0], ds[0]);
      PoliciesRead(line, End(offset, skips + value), SetAttrs(ps[0], ds[0], attrs), ps[1..], ds[1..]);
    }
  }

  // ----- Every named attribute holds the printed value -----

  function AttrNames(p: Policy): seq<string>
    requires p.Valid()
  {
    if p.TuplePolicy? then [p.names[0], p.names[1]] else [p.name]
  }

  function AllNames(ps: seq<Policy>): seq<string>
    requires ValidPolicies(ps)
    decreases |ps|
  {
    if ps == [] then [] else AttrNames(ps[0]) + AllNames(ps[1..])
  }

  predicate Distinct(names: seq<string>) {
    && "" !in names
    && forall i, j :: 0 <= i < j < |names| ==> names[i] != names[j]
  }

  /** The attributes a policy names hold the value printed for it. */
  predicate Holds(p: Policy, d: PolicyData, attrs: Attrs)
    requires Matches(p, d)
  {
    match p
    case IntPolicy(name, _) => name in attrs && attrs[name] == IntV(d.n)
    case StrPolicy(name, _) => name in attrs && attrs[name] == StrV(Double(d.s))
    case TuplePolicy(names, _) =>
      && names[0] in attrs && attrs[names[0]] == IntV(|d.rows|)
      && names[1] in attrs && attrs[names[1]] == Hosts(Elements(Doubled(Flatten(d.rows))))
  }

  predicate AllHold(ps: seq<Policy>, ds: seq<PolicyData>, attrs: Attrs)
    requires AllMatch(ps, ds)
  {
    forall i :: 0 <= i < |ps| ==> Holds(ps[i], ds[i], attrs)
  }

  predicate Agree(names: seq<string>, a: Attrs, b: Attrs) {
    forall n :: n in names ==> (n in a <==> n in b) && (n in a ==> a[n] == b[n])
  }

  lemma {:induction false} OthersKept(ps: seq<Policy>, ds: seq<PolicyData>, attrs: Attrs, names: seq<string>)
    requires AllMatch(ps, ds) && ValidPolicies(ps) && "" !in names
    requires forall n :: n in names ==> n !in AllNames(ps)
    ensures Agree(names, attrs, SetAll(ps, ds, attrs))
    decreases |ps|
  {
    if ps != [] {
      var p := ps[0];
      assert Matches(p, ds[0]);
      assert forall n :: n in AttrNames(p) || n in AllNames(ps[1..]) ==> n in AllNames(ps);
      assert AttrNames(p)[0] in AttrNames(p) && (p.TuplePolicy? ==> AttrNames(p)[1] in AttrNames(p));
      OthersKept(ps[1..], ds[1..], SetAttrs(p, ds[0], attrs), names);
    }
  }

  lemma {:induction false} NamesRecovered(ps: seq<Policy>, ds: seq<PolicyData>, attrs: Attrs)
    requires AllMatch(ps, ds) && ValidPolicies(ps) && Distinct(AllNames(ps))
    ensures AllHold(ps, ds, SetAll(ps, ds, attrs))
    decreases |ps|
  {
    if ps != [] {
      var p, names, rest := ps[0], AttrNames(ps[0]), AllNames(ps[1..]);
      assert Matches(p, ds[0]);
      DistinctSplit(names, rest);
      NamesRecovered(ps[1..], ds[1..], SetAttrs(p, ds[0], attrs));
      OthersKept(ps[1..], ds[1..], SetAttrs(p, ds[0], attrs), names);
      assert names[0] in names && (p.TuplePolicy? ==> names[1] in names);
      assert Holds(p, ds[0], SetAttrs(p, ds[0], attrs)) by {
        assert p.TuplePolicy? ==> names[0] != names[1];
      }
      var all := SetAll(ps, ds, attrs);
      forall i | 0 <= i < |ps|
        ensures Holds(ps[i], ds[i], all)
      {
        if i > 0 {
          assert Holds(ps[1..][i - 1], ds[1..][i - 1], all);
        }
      }
    }
  }

  lemma DistinctSplit(a: seq<string>, b: seq<string>)
    requires Distinct(a + b)
    ensures Distinct(a) && Distinct(b) && (forall n :: n in a ==> n !in b)
  {
    var c := a + b;
    assert forall i :: 0 <= i < |a| ==> a[i] == c[i];
    assert forall i :: 0 <= i < |b| ==> b[i] == c[|a| + i];
  }

  const NAMES: seq<string> :=
    ["event_type", "version", "event_time",
     "job_id", "num_processors", "submit_time", "term_time", "start_time", "user_name", "queue",
     "working_dir", "out_file", "err_file", "num_asked_hosts", "askedHosts", "num_exhosts", "exec_hosts",
     "job_name", "idx", "max_rmem", "max_rswap", "avg_mem", "run_time", "num_alloc_slots"]

  lemma NamesDistinct()
    ensures Distinct(NAMES)
  {
  }

  lemma {:induction false} HeaderNames()
    ensures AllNames(HEADER_POLICIES) == NAMES[..3]
  {
    var ps := HEADER_POLICIES;
    assert AllNames(ps[3..]) == [];
    assert AllNames(ps[2..]) == ["event_time"];
    assert AllNames(ps[1..]) == ["version", "event_time"];
  }

  /** Where the names of the i-th record policy start in `NAMES`. */
  function NamePos(i: nat): nat {
    if i <= 10 then i + 3 else if i == 11 then 15 else i + 5
  }

  lemma EarlyNames(i: nat)
    requires i < 10
    ensures AttrNames(JobFinishPolicies()[i]) == [NAMES[i + 3]]
  {
    hide Names;
  }

  lemma LateNames(i: nat)
    requires 12 <= i < 19
    ensures AttrNames(JobFinishPolicies()[i]) == [NAMES[i + 5]]
  {
    hide Names;
  }

  lemma HostNames()
    ensures AttrNames(JobFinishPolicies()[10]) == [NAMES[13], NAMES[14]]
    ensures AttrNames(JobFinishPolicies()[11]) == [NAMES[15], NAMES[16]]
  {
    hide Names;
  }

  lemma PolicyNames(i: nat)
    requires i < 19
    ensures AttrNames(JobFinishPolicies()[i]) == NAMES[NamePos(i)..NamePos(i + 1)]
  {
    hide JobFinishPolicies, AttrNames;
    HostNames();
    if i < 10 {
      EarlyNames(i);
    } else if i >= 12 {
      LateNames(i);
    }
  }

  lemma {:induction false} BodyNames(i: nat)
    requires i <= 19
    ensures AllNames(JobFinishPolicies()[i..]) == NAMES[NamePos(i)..]
    decreases 19 - i
  {
    hide JobFinishPolicies, AttrNames;
    if i < 19 {
      var ps := JobFinishPolicies();
      BodyNames(i + 1);
      PolicyNames(i);
      assert ps[i..][1..] == ps[i + 1..];
      assert NAMES[NamePos(i)..NamePos(i + 1)] + NAMES[NamePos(i + 1)..] == NAMES[NamePos(i)..];
    }
  }

  lemma NamesApart()
    ensures Distinct(AllNames(HEADER_POLICIES)) && Distinct(AllNames(JobFinishPolicies()))
    ensures forall n :: n in AllNames(HEADER_POLICIES) ==> n != "" && n !in AllNames(JobFinishPolicies())
  {
    hide AllNames, JobFinishPolicies;
    HeaderNames();
    BodyNames(0);
    assert JobFinishPolicies()[0..] == JobFinishPolicies();
    NamesDistinct();
    assert NAMES == NAMES[..3] + NAMES[3..];
    DistinctSplit(NAMES[..3], NAMES[3..]);
  }

  // ----- The JOB_FINISH record -----

  /** The line of a record: its header and body fields, then whatever follows. */
  function RecordLine(header: seq<PolicyData>, body: seq<PolicyData>, tail: string): string {
    RenderAll(RecordFields(header) + RecordFields(body)) + tail
  }

  predicate PrintedRecord(header: seq<PolicyData>, body: seq<PolicyData>) {
    && AllMatch(HEADER_POLICIES, header) && AllMatch(JobFinishPolicies(), body)
    && AllReadable(RecordFields(header) + RecordFields(body))
  }

  lemma {:induction false} HeaderReads(header: seq<PolicyData>, body: seq<PolicyData>, tail: string)
    requires PrintedRecord(header, body)
    ensures Here(RecordLine(header, body, tail), End(0, RecordFields(header)), RecordFields(body))
    ensures ParseAll(RecordLine(header, body, tail), 0, EVENT_DEFAULTS, HEADER_POLICIES)
         == Ok((End(0, RecordFields(header)), SetAll(HEADER_POLICIES, header, EVENT_DEFAULTS)))
  {
    hide ReadField, AllReadable, ParseAll, SetAll, RecordFields, JobFinishPolicies;
    var line := RecordLine(header, body, tail);
    assert Here(line, 0, RecordFields(header) + RecordFields(body));
    HereConcat(line, 0, RecordFields(header), RecordFields(body));
    PoliciesRead(line, 0, EVENT_DEFAULTS, HEADER_POLICIES, header);
  }

  lemma {:induction false} HeaderHolds(header: seq<PolicyData>)
    requires AllMatch(HEADER_POLICIES, header)
    ensures AllHold(HEADER_POLICIES, header, SetAll(HEADER_POLICIES, header, EVENT_DEFAULTS))
    ensures Text(SetAll(HEADER_POLICIES, header, EVENT_DEFAULTS), "version") == Double(header[1].s)
  {
    hide AllNames, Distinct, Double, JobFinishPolicies, SetAll;
    NamesApart();
    NamesRecovered(HEADER_POLICIES, header, EVENT_DEFAULTS);
    assert Matches(HEADER_POLICIES[1], header[1]);
    assert Holds(HEADER_POLICIES[1], header[1], SetAll(HEADER_POLICIES, header, EVENT_DEFAULTS));
  }

  lemma HeaderNamesKept(attrs: Attrs)
    ensures Agree(NAMES[..3], attrs, attrs + JOB_FINISH_DEFAULTS)
  {
    assert NAMES[..3] == ["event_type", "version", "event_time"];
    forall n | n in NAMES[..3]
      ensures n !in JOB_FINISH_DEFAULTS
    {
      assert n == "event_type" || n == "version" || n == "event_time";
    }
  }

  lemma HeaderSurvives(header: seq<PolicyData>, attrs: Attrs, after: Attrs)
    requires AllMatch(HEADER_POLICIES, header) && AllHold(HEADER_POLICIES, header, attrs)
    requires Agree(AllNames(HEADER_POLICIES), attrs + JOB_FINISH_DEFAULTS, after)
    ensures AllHold(HEADER_POLICIES, header, after)
  {
    HeaderNames();
    HeaderNamesKept(attrs);
    hide AllNames, Double;
    forall i | 0 <= i < 3
      ensures Holds(HEADER_POLICIES[i], header[i], after)
    {
      assert Matches(HEADER_POLICIES[i], header[i]) && Holds(HEADER_POLICIES[i], header[i], attrs);
      assert HEADER_POLICIES[i].name == NAMES[..3][i];
    }
  }

  /** A printed record of a supported version parses, and every named attribute holds what was printed. */
  lemma JobFinishRoundTrip(header: seq<PolicyData>, body: seq<PolicyData>, tail: string)
    requires PrintedRecord(header, body) && SUPPORT_LSF_VERSION <= Double(header[1].s)
    ensures var r := ParseJobFinish(RecordLine(header, body, tail));
            r.Ok? && AllHold(HEADER_POLICIES, header, r.value) && AllHold(JobFinishPolicies(), body, r.value)
  {
    hide ReadField, AllReadable, Double, RecordFields, JobFinishPolicies, SetAll, ParseAll, AllMatch, AllHold,
         Here, AllNames, Distinct, Agree;
    var line := RecordLine(header, body, tail);
    var ps := JobFinishPolicies();
    HeaderReads(header, body, tail);
    HeaderHolds(header);
    var attrs := SetAll(HEADER_POLICIES, header, EVENT_DEFAULTS);
    var start := End(0, RecordFields(header));
    PoliciesRead(line, start, attrs + JOB_FINISH_DEFAULTS, ps, body);
    var after := SetAll(ps, body, attrs + JOB_FINISH_DEFAULTS);
    NamesApart();
    NamesRecovered(ps, body, attrs + JOB_FINISH_DEFAULTS);
    OthersKept(ps, body, attrs + JOB_FINISH_DEFAULTS, AllNames(HEADER_POLICIES));
    HeaderSurvives(header, attrs, after);
  }

  /** A record whose version text does not start with the supported one is refused as a whole. */
  lemma OtherVersionRefused(header: seq<PolicyData>, body: seq<PolicyData>, tail: string)
    requires PrintedRecord(header, body) && !(SUPPORT_LSF_VERSION <= Double(header[1].s))
    ensures ParseJobFinish(RecordLine(header, body, tail)) == Err(InvalidVersion(Double(header[1].s)))
  {
    hide ReadField, AllReadable, Double, RecordFields, JobFinishPolicies, SetAll, ParseAll, AllMatch, AllHold, Here;
    HeaderReads(header, body, tail);
    HeaderHolds(header);
  }

  // ----- Which records look the same -----

  /** The two carry the same value for what the policy names; of the hosts only the set counts. */
  predicate SameNamed(p: Policy, a: PolicyData, b: PolicyData)
    requires Matches(p, a) && Matches(p, b)
  {
    match p
    case IntPolicy(_, _) => a.n == b.n
    case StrPolicy(_, _) => a.s == b.s
    case TuplePolicy(_, _) => |a.rows| == |b.rows| && Elements(Flatten(a.rows)) == Elements(Flatten(b.rows))
  }

  predicate AllSame(ps: seq<Policy>, a: seq<PolicyData>, b: seq<PolicyData>)
    requires AllMatch(ps, a) && AllMatch(ps, b)
  {
    forall i :: 0 <= i < |ps| ==> SameNamed(ps[i], a[i], b[i])
  }

  lemma HostsWithin(a: seq<string>, b: seq<string>)
    ensures Elements(Doubled(a)) <= Elements(Doubled(b)) <==> Elements(a) <= Elements(b)
  {
    hide Double;
    if Elements(Doubled(a)) <= Elements(Doubled(b)) {
      forall i | 0 <= i < |a|
        ensures a[i] in Elements(b)
      {
        assert Doubled(a)[i] == Double(a[i]) && Double(a[i]) in Elements(Doubled(b));
        var j :| 0 <= j < |b| && Doubled(b)[j] == Double(a[i]);
        DoubleInjective(a[i], b[j]);
      }
    }
    if Elements(a) <= Elements(b) {
      forall i | 0 <= i < |a|
        ensures Doubled(a)[i] in Elements(Doubled(b))
      {
        assert a[i] in Elements(b);
        var j :| 0 <= j < |b| && b[j] == a[i];
        assert Doubled(b)[j] == Doubled(a)[i];
      }
    }
  }

  lemma SameHosts(a: seq<string>, b: seq<string>)
    ensures Elements(Doubled(a)) == Elements(Doubled(b)) <==> Elements(a) == Elements(b)
  {
    HostsWithin(a, b);
    HostsWithin(b, a);
  }

  /** Attributes hold the values of both exactly when the two have the same named values. */
  lemma HoldsBoth(p: Policy, a: PolicyData, b: PolicyData, attrs: Attrs)
    requires Matches(p, a) && Matches(p, b) && Holds(p, a, attrs)
    ensures Holds(p, b, attrs) <==> SameNamed(p, a, b)
  {
    hide Double, Doubled, Elements, Flatten;
    match p
    case IntPolicy(_, _) =>
    case StrPolicy(_, _) =>
      if Double(a.s) == Double(b.s) {
        DoubleInjective(a.s, b.s);
      }
    case TuplePolicy(_, _) =>
      SameHosts(Flatten(a.rows), Flatten(b.rows));
  }

  lemma {:induction false} SetAllAlike(ps: seq<Policy>, a: seq<PolicyData>, b: seq<PolicyData>, attrs: Attrs)
    requires AllMatch(ps, a) && AllMatch(ps, b) && AllSame(ps, a, b)
    ensures SetAll(ps, a, attrs) == SetAll(ps, b, attrs)
  {
    hide Doubled, Flatten, Elements;
    if ps != [] {
      assert Matches(ps[0], a[0]) && Matches(ps[0], b[0]) && SameNamed(ps[0], a[0], b[0]);
      if ps[0].TuplePolicy? {
        SameHosts(Flatten(a[0].rows), Flatten(b[0].rows));
      }
      assert SetAttrs(ps[0], a[0], attrs) == SetAttrs(ps[0], b[0], attrs);
      SetAllAlike(ps[1..], a[1..], b[1..], SetAttrs(ps[0], a[0], attrs));
    }
  }

  lemma HoldSame(ps: seq<Policy>, a: seq<PolicyData>, b: seq<PolicyData>, attrs: Attrs)
    requires AllMatch(ps, a) && AllMatch(ps, b) && AllHold(ps, a, attrs) && AllHold(ps, b, attrs)
    ensures AllSame(ps, a, b)
  {
    hide Holds, SameNamed;
    forall i | 0 <= i < |ps|
      ensures SameNamed(ps[i], a[i], b[i])
    {
      assert Matches(ps[i], a[i]) && Matches(ps[i], b[i]);
      assert Holds(ps[i], a[i], attrs) && Holds(ps[i], b[i], attrs);
      HoldsBoth(ps[i], a[i], b[i], attrs);
    }
  }

  /** What parsing a printed record of a supported version gives. */
  lemma {:induction false} ParsedIs(header: seq<PolicyData>, body: seq<PolicyData>, tail: string)
    requires PrintedRecord(header, body) && SUPPORT_LSF_VERSION <= Double(header[1].s)
    ensures ParseJobFinish(RecordLine(header, body, tail))
         == Ok(SetAll(JobFinishPolicies(), body, SetAll(HEADER_POLICIES, header, EVENT_DEFAULTS) + JOB_FINISH_DEFAULTS))
  {
    hide ReadField, AllReadable, Double, RecordFields, JobFinishPolicies, SetAll, ParseAll, AllMatch, AllHold, Here;
    HeaderReads(header, body, tail);
    HeaderHolds(header);
    var attrs := SetAll(HEADER_POLICIES, header, EVENT_DEFAULTS);
    PoliciesRead(RecordLine(header, body, tail), End(0, RecordFields(header)), attrs + JOB_FINISH_DEFAULTS,
                 JobFinishPolicies(), body);
  }

  /** Two printed records parse to the same event exactly when they agree on everything the policies name. */
  lemma ParsedAlike(header: seq<PolicyData>, body: seq<PolicyData>, tail: string,
                    header': seq<PolicyData>, body': seq<PolicyData>, tail': string)
    requires PrintedRecord(header, body) && SUPPORT_LSF_VERSION <= Double(header[1].s)
    requires PrintedRecord(header', body') && SUPPORT_LSF_VERSION <= Double(header'[1].s)
    ensures ParseJobFinish(RecordLine(header, body, tail)) == ParseJobFinish(RecordLine(header', body', tail'))
            <==> AllSame(HEADER_POLICIES, header, header') && AllSame(JobFinishPolicies(), body, body')
  {
    hide ParseJobFinish, RecordLine, Double, RecordFields, JobFinishPolicies, SetAll, AllHold, AllMatch, AllReadable, AllSame;
    ParsedIs(header, body, tail);
    ParsedIs(header', body', tail');
    if ParseJobFinish(RecordLine(header, body, tail)) == ParseJobFinish(RecordLine(header', body', tail')) {
      JobFinishRoundTrip(header, body, tail);
      JobFinishRoundTrip(header', body', tail');
      var attrs := ParseJobFinish(RecordLine(header, body, tail)).value;
      HoldSame(HEADER_POLICIES, header, header', attrs);
      HoldSame(JobFinishPolicies(), body, body', attrs);
    }
    if AllSame(HEADER_POLICIES, header, header') && AllSame(JobFinishPolicies(), body, body') {
      SetAllAlike(HEADER_POLICIES, header, header', EVENT_DEFAULTS);
      SetAllAlike(JobFinishPolicies(), body, body', SetAll(HEADER_POLICIES, header, EVENT_DEFAULTS) + JOB_FINISH_DEFAULTS);
    }
  }
}
