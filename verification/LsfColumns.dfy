/** Parsing any line at all, column by column over its fields: what the policies compute. */
module LsfColumns {
  import opened Wrappers
  import opened Decimals
  import opened LsfReader
  import opened LsfEvents
  import opened LsfRecords
  import opened LsfLayout
  import opened LsfQuery

  // ----- A parser over columns and fields -----

  /** The fields behind the rows of a group. */
  function DropRows(toks: seq<string>, count: int, width: nat): Option<seq<string>>
    decreases count
  {
    if count <= 0 then Some(toks)
    else if |toks| < width then None
    else DropRows(toks[width..], count - 1, width)
  }

  /** The host names of a group, and the fields behind them. */
  function TakeHosts(toks: seq<string>, count: int): Option<(set<string>, seq<string>)>
    decreases count
  {
    if count <= 0 then Some(({}, toks))
    else if toks == [] || !IsQuoted(toks[0]) then None
    else
      match TakeHosts(toks[1..], count - 1)
      case None => None
      case Some((hosts, rest)) => Some(({Unquoted(toks[0])} + hosts, rest))
  }

  /** One column: the fields behind it, and its attributes. */
  function ReadColumn(c: Column, toks: seq<string>, attrs: Attrs): Option<(seq<string>, Attrs)> {
    if toks == [] then None
    else
      match c
      case Other(_) => Some((toks[1..], attrs))
      case Number(name) =>
        (match PyInt(toks[0]) case None => None case Some(n) => Some((toks[1..], attrs[name := IntV(n)])))
      case Words(name) =>
        if IsQuoted(toks[0]) then Some((toks[1..], attrs[name := StrV(Unquoted(toks[0]))])) else None
      case OtherGroup(_, row) =>
        (match PyInt(toks[0])
         case None => None
         case Some(n) =>
           match DropRows(toks[1..], n, |row|) case None => None case Some(rest) => Some((rest, attrs)))
      case HostGroup(count, name) =>
        (match PyInt(toks[0])
         case None => None
         case Some(n) =>
           match TakeHosts(toks[1..], n)
           case None => None
           case Some((hosts, rest)) => Some((rest, attrs[count := IntV(n)][name := Hosts(hosts)])))
  }

  function ReadColumns(cs: seq<Column>, toks: seq<string>, attrs: Attrs): Option<(seq<string>, Attrs)>
    decreases |cs|
  {
    if cs == [] then Some((toks, attrs))
    else
      match ReadColumn(cs[0], toks, attrs)
      case None => None
      case Some((rest, attrs')) => ReadColumns(cs[1..], rest, attrs')
  }

  lemma {:induction false} ReadConcat(a: seq<Column>, b: seq<Column>, toks: seq<string>, attrs: Attrs)
    ensures ReadColumns(a + b, toks, attrs)
         == match ReadColumns(a, toks, attrs) case None => None case Some((rest, attrs')) => ReadColumns(b, rest, attrs')
    decreases |a|
  {
    hide ReadColumn;
    if a == [] {
      assert a + b == b;
    } else {
      assert (a + b)[1..] == a[1..] + b && (a + b)[0] == a[0];
      match ReadColumn(a[0], toks, attrs)
      case None =>
      case Some((rest, attrs')) => ReadConcat(a[1..], b, rest, attrs');
    }
  }

  lemma {:induction false} ReadOne(c: Column, toks: seq<string>, attrs: Attrs)
    ensures ReadColumns([c], toks, attrs) == ReadColumn(c, toks, attrs)
  {
    hide ReadColumn;
    assert [c][1..] == [];
    match ReadColumn(c, toks, attrs)
    case None =>
    case Some((rest, attrs')) => assert ReadColumns([], rest, attrs') == Some((rest, attrs'));
  }

  // ----- The policies do the same -----

  lemma {:induction false} TokensNext(line: string, offset: nat)
    ensures ReadField(line, offset) == None <==> Tokens(line, offset) == []
    ensures ReadField(line, offset).Some? ==>
              Tokens(line, offset) == [ReadField(line, offset).value.0] + Tokens(line, ReadField(line, offset).value.1)
  {
    hide ReadField;
  }

  lemma {:induction false} RowTokens(line: string, offset: nat, names: seq<string>, idx: nat, k: nat)
    requires k < |names|
    ensures SkipRow(line, offset, names, idx, k).Ok? <==> |Tokens(line, offset)| >= |names| - 1 - k
    ensures SkipRow(line, offset, names, idx, k).Ok? ==>
              Tokens(line, SkipRow(line, offset, names, idx, k).value) == Tokens(line, offset)[|names| - 1 - k..]
    decreases |names| - k
  {
    hide ReadField, Tokens, RowName;
    if k + 1 < |names| {
      TokensNext(line, offset);
      match ReadField(line, offset)
      case None =>
      case Some((raw, next)) =>
        RowTokens(line, next, names, idx, k + 1);
        var toks, rest := Tokens(line, offset), Tokens(line, next);
        var n := |names| - 2 - k;
        if n <= |rest| {
          assert toks[n + 1..] == rest[n..];
        }
    }
  }

  lemma {:induction false} RowsTokens(line: string, offset: nat, names: seq<string>, idx: nat, count: int)
    requires |names| >= 1
    ensures SkipRows(line, offset, names, idx, count).Ok? <==> DropRows(Tokens(line, offset), count - idx, |names| - 1).Some?
    ensures SkipRows(line, offset, names, idx, count).Ok? ==>
              DropRows(Tokens(line, offset), count - idx, |names| - 1)
              == Some(Tokens(line, SkipRows(line, offset, names, idx, count).value))
    decreases count - idx
  {
    hide SkipRow, Tokens;
    if idx < count {
      RowTokens(line, offset, names, idx, 0);
      match SkipRow(line, offset, names, idx, 0)
      case Err(_) =>
      case Ok(next) => RowsTokens(line, next, names, idx + 1, count);
    }
  }

  lemma {:induction false} SkipTokens(line: string, offset: nat, s: Skip, attrs: Attrs)
    requires s.Counted? ==> |s.names| >= 1
    ensures SkipOne(line, offset, s).Ok? <==> ReadColumn(SkipColumn(s), Tokens(line, offset), attrs).Some?
    ensures SkipOne(line, offset, s).Ok? ==>
              ReadColumn(SkipColumn(s), Tokens(line, offset), attrs)
              == Some((Tokens(line, SkipOne(line, offset, s).value), attrs))
  {
    hide ReadField, Tokens, PyInt, SkipRows, DropRows;
    TokensNext(line, offset);
    match ReadField(line, offset)
    case None =>
    case Some((raw, next)) =>
      assert ([raw] + Tokens(line, next))[1..] == Tokens(line, next);
      if s.Counted? && PyInt(raw).Some? {
        RowsTokens(line, next, s.names, 0, PyInt(raw).value);
      }
  }

  lemma {:induction false} SkipsTokens(line: string, offset: nat, ss: seq<Skip>, attrs: Attrs)
    requires forall i :: 0 <= i < |ss| && ss[i].Counted? ==> |ss[i].names| >= 1
    ensures SkipAll(line, offset, ss).Ok? <==> ReadColumns(SkipColumns(ss), Tokens(line, offset), attrs).Some?
    ensures SkipAll(line, offset, ss).Ok? ==>
              ReadColumns(SkipColumns(ss), Tokens(line, offset), attrs)
              == Some((Tokens(line, SkipAll(line, offset, ss).value), attrs))
    decreases |ss|
  {
    hide SkipOne, Tokens, ReadColumn, SkipColumn;
    if ss != [] {
      SkipTokens(line, offset, ss[0], attrs);
      assert SkipColumns(ss)[1..] == SkipColumns(ss[1..]) && SkipColumns(ss)[0] == SkipColumn(ss[0]);
      match SkipOne(line, offset, ss[0])
      case Err(_) =>
      case Ok(next) => SkipsTokens(line, next, ss[1..], attrs);
    }
  }

  lemma {:induction false} HostsTokens(line: string, offset: nat, names: seq<string>, idx: nat, count: int, acc: seq<string>)
    requires |names| == 2
    ensures ReadHostRows(line, offset, names, idx, count, acc).Ok? <==> TakeHosts(Tokens(line, offset), count - idx).Some?
    ensures ReadHostRows(line, offset, names, idx, count, acc).Ok? ==>
              var (next, all) := ReadHostRows(line, offset, names, idx, count, acc).value;
              var (hosts, rest) := TakeHosts(Tokens(line, offset), count - idx).value;
              rest == Tokens(line, next) && Elements(all) == Elements(acc) + hosts
    decreases count - idx
  {
    hide ReadField, Tokens, IsQuoted;
    if idx < count {
      TokensNext(line, offset);
      match ReadField(line, offset)
      case None =>
      case Some((raw, next)) =>
        assert ([raw] + Tokens(line, next))[1..] == Tokens(line, next);
        if IsQuoted(raw) {
          OneHostRow(line, offset, names, acc, raw, next);
          HostsTokens(line, next, names, idx + 1, count, acc + [Unquoted(raw)]);
          ElementsMore(acc, Unquoted(raw));
        }
    }
  }

  lemma {:induction false} OneHostRow(line: string, offset: nat, names: seq<string>, acc: seq<string>, raw: string, next: nat)
    requires |names| == 2 && ReadField(line, offset) == Some((raw, next)) && IsQuoted(raw)
    ensures ReadHostRow(line, offset, names, 0, acc) == Ok((next, acc + [Unquoted(raw)]))
  {
    hide ReadField, IsQuoted;
    assert ReadHostRow(line, next, names, 1, acc + [Unquoted(raw)]) == Ok((next, acc + [Unquoted(raw)]));
  }

  lemma ElementsMore(acc: seq<string>, s: string)
    ensures Elements(acc + [s]) == Elements(acc) + {s}
  {
    var more := acc + [s];
    assert more[|acc|] == s;
    assert forall i :: 0 <= i < |acc| ==> more[i] == acc[i];
  }

  /** The second attributes are among the first; the parser's own also have one without a name. */
  predicate Within(b: Attrs, a: Attrs) {
    "" !in b && forall n :: n in b ==> n in a && a[n] == b[n]
  }

  function ColumnNames(c: Column): set<string> {
    match c
    case Number(name) => {name}
    case Words(name) => {name}
    case HostGroup(count, name) => {count, name}
    case Other(_) => {}
    case OtherGroup(_, _) => {}
  }

  predicate Named(cs: seq<Column>) {
    forall i :: 0 <= i < |cs| ==> "" !in ColumnNames(cs[i])
  }

  lemma {:induction false} ValueTokens(line: string, offset: nat, p: Policy, a: Attrs, b: Attrs)
    requires p.Valid() && (p.TuplePolicy? ==> |p.names| == 2) && Within(b, a) && "" !in ColumnNames(ValueColumn(p))
    ensures ParseValue(line, offset, a, p).Ok? <==> ReadColumn(ValueColumn(p), Tokens(line, offset), b).Some?
    ensures ParseValue(line, offset, a, p).Ok? ==>
              var (next, a') := ParseValue(line, offset, a, p).value;
              var (rest, b') := ReadColumn(ValueColumn(p), Tokens(line, offset), b).value;
              rest == Tokens(line, next) && Within(b', a')
  {
    hide ReadField, Tokens, PyInt, IsQuoted, ReadHostRows, TakeHosts, Elements;
    TokensNext(line, offset);
    match ReadField(line, offset)
    case None =>
    case Some((raw, next)) =>
      assert ([raw] + Tokens(line, next))[1..] == Tokens(line, next);
      if p.TuplePolicy? && PyInt(raw).Some? {
        HostsTokens(line, next, p.names, 0, PyInt(raw).value, []);
        assert Elements([]) == {} by { NoElements(); }
      }
  }

  lemma NoElements()
    ensures Elements([]) == {}
  {
  }

  lemma {:induction false} PolicyTokens(line: string, offset: nat, p: Policy, a: Attrs, b: Attrs)
    requires p.Valid() && (p.TuplePolicy? ==> |p.names| == 2) && Within(b, a) && "" !in ColumnNames(ValueColumn(p))
    ensures var read := ReadColumns(SkipColumns(p.skips) + [ValueColumn(p)], Tokens(line, offset), b);
            && (ParsePolicy(line, offset, a, p).Ok? <==> read.Some?)
            && (read.Some? ==>
                  var (next, a') := ParsePolicy(line, offset, a, p).value;
                  read.value.0 == Tokens(line, next) && Within(read.value.1, a'))
  {
    hide Tokens, SkipAll, ParseValue, ReadColumn, ReadColumns, SkipColumns, ValueColumn, Within, ColumnNames;
    SkipsTokens(line, offset, p.skips, b);
    ReadConcat(SkipColumns(p.skips), [ValueColumn(p)], Tokens(line, offset), b);
    match SkipAll(line, offset, p.skips)
    case Err(_) =>
    case Ok(next) =>
      ReadOne(ValueColumn(p), Tokens(line, next), b);
      ValueTokens(line, next, p, a, b);
  }

  /** On any line, a policy list reads what its columns read. */
  lemma {:induction false} PoliciesTokens(line: string, offset: nat, ps: seq<Policy>, a: Attrs, b: Attrs)
    requires OneNamePerRow(ps) && Named(PolicyColumns(ps)) && Within(b, a)
    ensures var read := ReadColumns(PolicyColumns(ps), Tokens(line, offset), b);
            && (ParseAll(line, offset, a, ps).Ok? <==> read.Some?)
            && (read.Some? ==>
                  var (next, a') := ParseAll(line, offset, a, ps).value;
                  read.value.0 == Tokens(line, next) && Within(read.value.1, a'))
    decreases |ps|
  {
    hide Tokens, ParsePolicy, ReadColumn, ReadColumns, SkipColumns, ValueColumn, Within, ColumnNames;
    if ps == [] {
      assert ReadColumns([], Tokens(line, offset), b) == Some((Tokens(line, offset), b)) by { ReadNone(Tokens(line, offset), b); }
    } else {
      var own := SkipColumns(ps[0].skips) + [ValueColumn(ps[0])];
      assert PolicyColumns(ps) == own + PolicyColumns(ps[1..]);
      NamedSplit(own, PolicyColumns(ps[1..]));
      assert own[|own| - 1] == ValueColumn(ps[0]);
      PolicyTokens(line, offset, ps[0], a, b);
      ReadConcat(own, PolicyColumns(ps[1..]), Tokens(line, offset), b);
      match ParsePolicy(line, offset, a, ps[0])
      case Err(_) =>
      case Ok((next, a')) =>
        var b' := ReadColumns(own, Tokens(line, offset), b).value.1;
        PoliciesTokens(line, next, ps[1..], a', b');
    }
  }

  lemma {:induction false} ReadNone(toks: seq<string>, b: Attrs)
    ensures ReadColumns([], toks, b) == Some((toks, b))
  {
  }

  lemma NamedSplit(a: seq<Column>, b: seq<Column>)
    requires Named(a + b)
    ensures Named(a) && Named(b)
  {
    hide ColumnNames;
    assert forall i :: 0 <= i < |a| ==> (a + b)[i] == a[i];
    assert forall i :: 0 <= i < |b| ==> (a + b)[|a| + i] == b[i];
  }

  // ----- Header and record -----

  function AllColumnNames(cs: seq<Column>): set<string> {
    if cs == [] then {} else ColumnNames(cs[0]) + AllColumnNames(cs[1..])
  }

  /** Columns set the attributes they name and leave the others. */
  lemma {:induction false} OnlyNamed(cs: seq<Column>, toks: seq<string>, attrs: Attrs)
    requires ReadColumns(cs, toks, attrs).Some?
    ensures ReadColumns(cs, toks, attrs).value.1.Keys == attrs.Keys + AllColumnNames(cs)
    ensures forall n :: n in attrs && n !in AllColumnNames(cs) ==>
              ReadColumns(cs, toks, attrs).value.1[n] == attrs[n]
    decreases |cs|
  {
    hide PyInt, IsQuoted, TakeHosts, DropRows;
    if cs != [] {
      var (rest, attrs') := ReadColumn(cs[0], toks, attrs).value;
      OnlyNamed(cs[1..], rest, attrs');
    }
  }

  lemma {:induction false} NamesOfSome(cs: seq<Column>, i: nat)
    requires i < |cs|
    ensures ColumnNames(cs[i]) <= AllColumnNames(cs)
  {
    if i > 0 {
      NamesOfSome(cs[1..], i - 1);
    }
  }

  lemma {:induction false} NamesConcat(a: seq<Column>, b: seq<Column>)
    ensures AllColumnNames(a + b) == AllColumnNames(a) + AllColumnNames(b)
  {
    hide ColumnNames;
    if a == [] {
      assert a + b == b;
    } else {
      assert (a + b)[1..] == a[1..] + b;
      NamesConcat(a[1..], b);
    }
  }

  lemma {:induction false} NamesOfSkips(ss: seq<Skip>)
    ensures AllColumnNames(SkipColumns(ss)) == {}
  {
    if ss != [] {
      assert SkipColumns(ss)[1..] == SkipColumns(ss[1..]);
      NamesOfSkips(ss[1..]);
    }
  }

  /** The columns name what the policies name. */
  lemma {:induction false} NamesOfPolicies(ps: seq<Policy>)
    requires OneNamePerRow(ps)
    ensures forall n :: n in AllColumnNames(PolicyColumns(ps)) <==> n in AllNames(ps)
    decreases |ps|
  {
    if ps != [] {
      var own := SkipColumns(ps[0].skips) + [ValueColumn(ps[0])];
      NamesConcat(own, PolicyColumns(ps[1..]));
      NamesConcat(SkipColumns(ps[0].skips), [ValueColumn(ps[0])]);
      NamesOfSkips(ps[0].skips);
      assert [ValueColumn(ps[0])][1..] == [] && AllColumnNames([]) == {};
      assert AllColumnNames([ValueColumn(ps[0])]) == ColumnNames(ValueColumn(ps[0]));
      NamesOfPolicies(ps[1..]);
      hide PolicyColumns, AllColumnNames, SkipColumns;
    }
  }

  lemma {:induction false} AllNamed(ps: seq<Policy>)
    requires OneNamePerRow(ps) && Distinct(AllNames(ps))
    ensures Named(PolicyColumns(ps)) && "" !in AllColumnNames(PolicyColumns(ps))
  {
    hide PolicyColumns, AllNames, ColumnNames;
    NamesOfPolicies(ps);
    forall i | 0 <= i < |PolicyColumns(ps)|
      ensures "" !in ColumnNames(PolicyColumns(ps)[i])
    {
      NamesOfSome(PolicyColumns(ps), i);
    }
  }

  /** What the header columns of a line hold, if they can be read and the version is supported. */
  function ColumnHeader(line: string): Option<(seq<string>, Attrs)> {
    match ReadColumns(HEADER_COLUMNS, Tokens(line, 0), map[])
    case None => None
    case Some((rest, attrs)) => if SUPPORT_LSF_VERSION <= Text(attrs, "version") then Some((rest, attrs)) else None
  }

  /** On any line, the header is parsed exactly if its three columns can be read and the version is supported. */
  lemma {:induction false} HeaderIsColumns(line: string)
    ensures ParseHeader(line).Ok? <==> ColumnHeader(line).Some?
    ensures ParseHeader(line).Ok? ==>
              ColumnHeader(line).value.0 == Tokens(line, ParseHeader(line).value.0)
              && Within(ColumnHeader(line).value.1, ParseHeader(line).value.1)
              && ColumnHeader(line).value.1.Keys == {"event_type", "version", "event_time"}
  {
    hide Tokens, ParseAll, ReadColumns, PolicyColumns, JobFinishPolicies, AllNames, Distinct, ColumnNames;
    HeaderColumnsAre();
    HostPoliciesPlain();
    NamesApart();
    AllNamed(HEADER_POLICIES);
    PoliciesTokens(line, 0, HEADER_POLICIES, EVENT_DEFAULTS, map[]);
    if ReadColumns(HEADER_COLUMNS, Tokens(line, 0), map[]).Some? {
      OnlyNamed(HEADER_COLUMNS, Tokens(line, 0), map[]);
      HeaderColumnNames();
    }
  }

  lemma HeaderColumnNames()
    ensures AllColumnNames(HEADER_COLUMNS) == {"event_type", "version", "event_time"}
  {
    var cs := HEADER_COLUMNS;
    assert cs == [cs[0]] + ([cs[1]] + [cs[2]]);
    NamesConcat([cs[0]], [cs[1]] + [cs[2]]);
    NamesConcat([cs[1]], [cs[2]]);
    assert AllColumnNames([]) == {};
    assert [cs[0]][1..] == [] && [cs[1]][1..] == [] && [cs[2]][1..] == [];
  }

  /** The defaults of a job-finish event name nothing of the header. */
  lemma DefaultsKept(b: Attrs, a: Attrs)
    requires Within(b, a) && b.Keys == {"event_type", "version", "event_time"}
    ensures Within(b, a + JOB_FINISH_DEFAULTS)
  {
    HeaderNamesKept(a);
    assert NAMES[..3] == ["event_type", "version", "event_time"];
    hide Text;
    forall n | n in b
      ensures n in a + JOB_FINISH_DEFAULTS && (a + JOB_FINISH_DEFAULTS)[n] == b[n]
    {
      assert n in NAMES[..3];
    }
  }

  /**
   * On any line at all: a job-finish event is parsed exactly if the columns of the layout can be read from the
   * line's fields, in order, and the version is supported; and its attributes are what was read.
   */
  lemma {:induction false} JobFinishIsColumns(line: string)
    ensures var read := ReadColumns(Layout(), Tokens(line, 0), map[]);
            && (ParseJobFinish(line).Ok? <==> read.Some? && SUPPORT_LSF_VERSION <= Text(read.value.1, "version"))
            && (ParseJobFinish(line).Ok? ==> Within(read.value.1, ParseJobFinish(line).value))
  {
    hide Tokens, ParseAll, ReadColumns, PolicyColumns, JobFinishPolicies, AllNames, Distinct, ColumnNames, ParseHeader,
         ColumnHeader, Layout, Within, AllColumnNames;
    var toks := Tokens(line, 0);
    HeaderIsColumns(line);
    HeaderColumnsAre();
    PoliciesReadLayout();
    HostPoliciesPlain();
    NamesApart();
    AllNamed(JobFinishPolicies());
    var body := PolicyColumns(JobFinishPolicies());
    ReadConcat(HEADER_COLUMNS, body, toks, map[]);
    VersionDecides(line);
    if ReadColumns(HEADER_COLUMNS, toks, map[]).Some? {
      var (rest, b) := ReadColumns(HEADER_COLUMNS, toks, map[]).value;
      HeaderRead(toks);
      if ReadColumns(body, rest, b).Some? {
        OnlyNamed(body, rest, b);
        NamesOfPolicies(JobFinishPolicies());
        HeaderNames();
        assert "version" in AllNames(HEADER_POLICIES) by { assert NAMES[..3][1] == "version"; }
        assert Text(ReadColumns(body, rest, b).value.1, "version") == Text(b, "version");
      }
      if ParseHeader(line).Ok? {
        var (next, a) := ParseHeader(line).value;
        DefaultsKept(b, a);
        PoliciesTokens(line, next, JobFinishPolicies(), a + JOB_FINISH_DEFAULTS, b);
      }
    }
  }

  lemma {:induction false} HeaderRead(toks: seq<string>)
    requires ReadColumns(HEADER_COLUMNS, toks, map[]).Some?
    ensures ReadColumns(HEADER_COLUMNS, toks, map[]).value.1.Keys == {"event_type", "version", "event_time"}
  {
    hide ReadColumns, AllColumnNames;
    OnlyNamed(HEADER_COLUMNS, toks, map[]);
    HeaderColumnNames();
  }

  lemma {:induction false} VersionDecides(line: string)
    ensures var read := ReadColumns(HEADER_COLUMNS, Tokens(line, 0), map[]);
            && (ColumnHeader(line).Some? <==> read.Some? && SUPPORT_LSF_VERSION <= Text(read.value.1, "version"))
            && (ColumnHeader(line).Some? ==> ColumnHeader(line) == read)
  {
    hide ReadColumns, Tokens;
  }

  /** What the query selects, of any lines: job-finish records in the time range whose columns can be read. */
  lemma {:induction false} SelectedIsColumns(line: string, start: int, end: int)
    ensures Selected(line, start, end)
            <==> var read := ReadColumns(Layout(), Tokens(line, 0), map[]);
                 && read.Some? && SUPPORT_LSF_VERSION <= Text(read.value.1, "version")
                 && Text(read.value.1, "event_type") == "JOB_FINISH"
                 && start <= LsfEvents.Number(read.value.1, "event_time") <= end
  {
    hide Tokens, ReadColumns, Layout, ParseHeader, ParseJobFinish, ColumnHeader;
    JobFinishIsColumns(line);
    HeaderIsColumns(line);
    HeaderInRecord(line);
  }

  /** A record's columns begin with those of its header. */
  lemma {:induction false} HeaderInRecord(line: string)
    ensures var (toks, read) := (Tokens(line, 0), ReadColumns(Layout(), Tokens(line, 0), map[]));
            read.Some? ==>
              var header := ReadColumns(HEADER_COLUMNS, toks, map[]);
              && header.Some? && header.value.1.Keys == {"event_type", "version", "event_time"}
              && (forall n :: n in header.value.1 ==> n in read.value.1 && read.value.1[n] == header.value.1[n])
              && (SUPPORT_LSF_VERSION <= Text(read.value.1, "version") <==> ColumnHeader(line) == header)
              && (SUPPORT_LSF_VERSION <= Text(read.value.1, "version") <==> ColumnHeader(line).Some?)
  {
    hide Tokens, ReadColumns, PolicyColumns, JobFinishPolicies, AllNames, Distinct, ColumnNames, Layout, AllColumnNames,
         ColumnHeader;
    var toks := Tokens(line, 0);
    var body := PolicyColumns(JobFinishPolicies());
    HeaderColumnsAre();
    PoliciesReadLayout();
    HostPoliciesPlain();
    NamesApart();
    ReadConcat(HEADER_COLUMNS, body, toks, map[]);
    VersionDecides(line);
    if ReadColumns(Layout(), toks, map[]).Some? {
      var (rest, b) := ReadColumns(HEADER_COLUMNS, toks, map[]).value;
      HeaderRead(toks);
      OnlyNamed(body, rest, b);
      NamesOfPolicies(JobFinishPolicies());
      HeaderNames();
      assert NAMES[..3] == ["event_type", "version", "event_time"];
      forall n | n in b
        ensures n !in AllColumnNames(body)
      {
        assert n in AllNames(HEADER_POLICIES);
      }
      assert Text(ReadColumns(body, rest, b).value.1, "version") == Text(b, "version");
    }
  }
}
