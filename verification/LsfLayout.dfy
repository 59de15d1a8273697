/** The columns of a JOB_FINISH record in file order, and which of them each attribute is read from. */
module LsfLayout {
  import opened Wrappers
  import opened LsfReader
  import opened LsfEvents
  import opened LsfRecords

  /**
   * A column: a named integer, a named string, a field nobody asks for, a counted group of host names, or
   * another counted group, with the names of the fields of each of its rows.
   */
  datatype Column =
    | Number(name: string)
    | Words(name: string)
    | Other(name: string)
    | HostGroup(count: string, hosts: string)
    | OtherGroup(count: string, row: seq<string>)

  function Others(names: seq<string>): seq<Column> {
    seq(|names|, i requires 0 <= i < |names| => Other(names[i]))
  }

  const HEADER_COLUMNS: seq<Column> := [Words("event_type"), Words("version"), Number("event_time")]

  const JOB_COLUMNS: seq<Column> :=
    [Number("job_id"), Other("userId"), Other("options"), Number("num_processors"),
     Number("submit_time"), Other("beginTime"), Number("term_time"), Number("start_time"),
     Words("user_name"), Words("queue")]

  const FILE_COLUMNS: seq<Column> :=
    [Other("resReq"), Other("dependCond"), Other("preExecCmd"), Other("fromHost"), Words("working_dir"),
     Other("inFile"), Words("out_file"), Words("err_file")]

  const HOST_COLUMNS: seq<Column> :=
    [Other("jobFile"), HostGroup("num_asked_hosts", "askedHosts"), HostGroup("num_exhosts", "exec_hosts")]

  const NAME_COLUMNS: seq<Column> := [Other("jStatus"), Other("hostFactor"), Words("job_name")]

  const USAGE_COLUMNS: seq<Column> :=
    [Other("command"),
     Other("ru_utime"), Other("ru_stime"), Other("ru_maxrss"), Other("ru_ixrss"), Other("ru_ismrss"),
     Other("ru_idrss"), Other("ru_isrss"), Other("ru_minflt"), Other("ru_majflt"), Other("ru_nswap"),
     Other("ru_inblock"), Other("ru_oublock"), Other("ru_ioch"), Other("ru_msgsnd"), Other("ru_msgrcv"),
     Other("ru_nsignals"), Other("ru_nvcsw"), Other("ru_nivcsw"), Other("ru_exutime"),
     Other("mailUser"), Other("projectName"), Other("exitStatus"), Other("maxNumProcessors"),
     Other("loginShell"), Other("timeEvent"), Number("idx")]

  const MEMORY_COLUMNS: seq<Column> := [Number("max_rmem"), Number("max_rswap")]

  const REQUEST_COLUMNS: seq<Column> :=
    [Other("inFileSpool"), Other("commandSpool"), Other("rsvId"), Other("sla"), Other("exceptMask"),
     Other("additionalInfo"), Other("exitInfo"), Other("warningAction"), Other("warningTimePeriod"),
     Other("chargedSAAP"), Other("licenseProject"), Other("app"), Other("postExecCmd"),
     Other("runtimeEstimation"), Other("jobGroupName"), Other("requeueEvalues"), Other("options2"),
     Other("resizeNotifyCmd"), Other("lastResizeTime"), Other("rsvId"), Other("jobDescription"),
     OtherGroup("submitExtNum", ["key", "value"]),
     OtherGroup("numHostRusage", ["hostname", "mem", "swap", "utime", "stime"]),
     Other("options3"), Other("runLimit"), Number("avg_mem")]

  const RUN_COLUMNS: seq<Column> :=
    [Other("effectiveResReq"), Other("srcCluster"), Other("srcJobId"), Other("dstCluster"), Other("dstJobId"),
     Other("forwardTime"), Other("flow_id"), Other("acJobWaitTime"), Other("totalProvisionTime"),
     Other("outdir"), Number("run_time")]

  const NETWORK_COLUMNS: seq<Column> :=
    [Other("subcwd"), OtherGroup("num_network", ["networkID", "num_window"]),
     Other("affinity"), Other("serial_job_energy"), Other("cpi"), Other("gips"), Other("gbs"), Other("gflops"),
     Number("num_alloc_slots")]

  function Section(k: nat): seq<Column>
    requires k < 10
  {
    match k
    case 0 => HEADER_COLUMNS
    case 1 => JOB_COLUMNS
    case 2 => FILE_COLUMNS
    case 3 => HOST_COLUMNS
    case 4 => NAME_COLUMNS
    case 5 => USAGE_COLUMNS
    case 6 => MEMORY_COLUMNS
    case 7 => REQUEST_COLUMNS
    case 8 => RUN_COLUMNS
    case _ => NETWORK_COLUMNS
  }

  /** The record from section `k` on. */
  function SectionsFrom(k: nat): seq<Column>
    requires k <= 10
    decreases 10 - k
  {
    if k == 10 then [] else Section(k) + SectionsFrom(k + 1)
  }

  /** The whole record. */
  function Layout(): seq<Column> {
    SectionsFrom(0)
  }

  // ----- Records in that layout -----

  /** What stands in a column: one field, or the rows of a group. */
  datatype Cell = Single(f: Field) | Rows(rows: seq<seq<Field>>)

  predicate Fits(c: Column, cell: Cell) {
    match c
    case Number(_) => cell.Single? && cell.f.IntField?
    case Words(_) => cell.Single? && cell.f.StrField?
    case Other(_) => cell.Single?
    case HostGroup(_, _) => cell.Rows? && forall i :: 0 <= i < |cell.rows| ==> |cell.rows[i]| == 1 && cell.rows[i][0].StrField?
    case OtherGroup(_, row) => cell.Rows? && forall i :: 0 <= i < |cell.rows| ==> |cell.rows[i]| == |row|
  }

  predicate AllFit(cs: seq<Column>, cells: seq<Cell>) {
    |cs| == |cells| && forall i :: 0 <= i < |cs| ==> Fits(cs[i], cells[i])
  }

  /** A group is written as its number of rows and then the rows. */
  function CellFields(cell: Cell): (fs: seq<Field>)
    ensures fs != []
  {
    match cell
    case Single(f) => [f]
    case Rows(rows) => [IntField(|rows|)] + Flatten(rows)
  }

  function FieldsOf(cells: seq<Cell>): seq<Field> {
    if cells == [] then [] else CellFields(cells[0]) + FieldsOf(cells[1..])
  }

  /** The attributes a column sets are what stands in its cell. */
  predicate Recovered(c: Column, cell: Cell, attrs: Attrs)
    requires Fits(c, cell)
  {
    match c
    case Number(name) => name in attrs && attrs[name] == IntV(cell.f.n)
    case Words(name) => name in attrs && attrs[name] == StrV(Double(cell.f.s))
    case Other(_) => true
    case HostGroup(count, hosts) =>
      && count in attrs && attrs[count] == IntV(|cell.rows|)
      && hosts in attrs && attrs[hosts] == Hosts(set i | 0 <= i < |cell.rows| :: Double(cell.rows[i][0].s))
    case OtherGroup(_, _) => true
  }

  // ----- The columns that policies name and skip -----

  function SkipColumn(s: Skip): Column {
    match s
    case Fixed(name) => Other(name)
    case Counted(names) => if names == [] then OtherGroup("", []) else OtherGroup(names[0], names[1..])
  }

  function SkipColumns(ss: seq<Skip>): (cs: seq<Column>)
    ensures |cs| == |ss|
  {
    seq(|ss|, i requires 0 <= i < |ss| => SkipColumn(ss[i]))
  }

  function ValueColumn(p: Policy): Column {
    match p
    case IntPolicy(name, _) => Number(name)
    case StrPolicy(name, _) => Words(name)
    case TuplePolicy(names, _) => if |names| >= 2 then HostGroup(names[0], names[1]) else Other("")
  }

  function PolicyColumns(ps: seq<Policy>): seq<Column> {
    if ps == [] then [] else SkipColumns(ps[0].skips) + [ValueColumn(ps[0])] + PolicyColumns(ps[1..])
  }

  /** Groups of host names have one name a row. */
  predicate OneNamePerRow(ps: seq<Policy>) {
    ValidPolicies(ps) && forall i :: 0 <= i < |ps| && ps[i].TuplePolicy? ==> |ps[i].names| == 2
  }

  // ----- The data of the policies in a record -----

  function SkipOf(cell: Cell): SkipData {
    match cell
    case Single(f) => FixedData(f)
    case Rows(rows) => CountedData(rows)
  }

  function SkipsOf(cells: seq<Cell>): (ds: seq<SkipData>)
    ensures |ds| == |cells|
  {
    seq(|cells|, i requires 0 <= i < |cells| => SkipOf(cells[i]))
  }

  function RowNames(rows: seq<seq<Field>>): (hs: seq<seq<string>>)
    requires forall i :: 0 <= i < |rows| ==> |rows[i]| == 1 && rows[i][0].StrField?
    ensures |hs| == |rows|
  {
    seq(|rows|, i requires 0 <= i < |rows| => [rows[i][0].s])
  }

  function DataOf(p: Policy, cells: seq<Cell>): PolicyData
    requires |cells| == |p.skips| + 1 && Fits(ValueColumn(p), cells[|p.skips|])
    requires p.TuplePolicy? ==> |p.names| >= 2
  {
    var n := |p.skips|;
    match p
    case IntPolicy(_, _) => IntData(SkipsOf(cells[..n]), cells[n].f.n)
    case StrPolicy(_, _) => StrData(SkipsOf(cells[..n]), cells[n].f.s)
    case TuplePolicy(_, _) => TupleData(SkipsOf(cells[..n]), RowNames(cells[n].rows))
  }

  lemma {:induction false} FitsConcat(a: seq<Column>, b: seq<Column>, cells: seq<Cell>)
    requires AllFit(a + b, cells)
    ensures AllFit(a, cells[..|a|]) && AllFit(b, cells[|a|..])
  {
    hide Fits;
    forall i | 0 <= i < |a|
      ensures Fits(a[i], cells[..|a|][i])
    {
      assert (a + b)[i] == a[i];
    }
    forall i | 0 <= i < |b|
      ensures Fits(b[i], cells[|a|..][i])
    {
      assert (a + b)[|a| + i] == b[i];
    }
  }

  /** The policies' data that a record in their columns holds. */
  function AllData(ps: seq<Policy>, cells: seq<Cell>): (ds: seq<PolicyData>)
    requires OneNamePerRow(ps) && AllFit(PolicyColumns(ps), cells)
    ensures |ds| == |ps|
    decreases |ps|
  {
    if ps == [] then []
    else
      var p, n := ps[0], |ps[0].skips| + 1;
      assert PolicyColumns(ps) == (SkipColumns(p.skips) + [ValueColumn(p)]) + PolicyColumns(ps[1..]);
      FitsConcat(SkipColumns(p.skips) + [ValueColumn(p)], PolicyColumns(ps[1..]), cells);
      assert Fits((SkipColumns(p.skips) + [ValueColumn(p)])[n - 1], cells[..n][n - 1]);
      [DataOf(p, cells[..n])] + AllData(ps[1..], cells[n..])
  }

  // ----- The policies name and skip exactly these columns -----

  lemma {:induction false} ColumnsConcat(a: seq<Policy>, b: seq<Policy>)
    ensures PolicyColumns(a + b) == PolicyColumns(a) + PolicyColumns(b)
  {
    hide SkipColumns, ValueColumn;
    if a == [] {
      assert a + b == b;
    } else {
      assert (a + b)[1..] == a[1..] + b;
      ColumnsConcat(a[1..], b);
    }
  }

  lemma OnePolicy(p: Policy)
    ensures PolicyColumns([p]) == SkipColumns(p.skips) + [ValueColumn(p)]
  {
    assert [p][1..] == [] && PolicyColumns([]) == [];
  }

  lemma HeaderColumnsAre()
    ensures PolicyColumns(HEADER_POLICIES) == HEADER_COLUMNS
  {
    var ps := HEADER_POLICIES;
    assert ps == [ps[0]] + ([ps[1]] + [ps[2]]);
    ColumnsConcat([ps[0]], [ps[1]] + [ps[2]]);
    ColumnsConcat([ps[1]], [ps[2]]);
    OnePolicy(ps[0]);
    OnePolicy(ps[1]);
    OnePolicy(ps[2]);
    hide PolicyColumns;
  }

  /** The columns of the i-th policy of the record's body. */
  function Part(i: nat): seq<Column>
    requires i < 19
  {
    var p := JobFinishPolicies()[i];
    SkipColumns(p.skips) + [ValueColumn(p)]
  }

  lemma JobParts()
    ensures Part(0) + Part(1) + Part(2) + Part(3) + Part(4) + Part(5) + Part(6) == JOB_COLUMNS
  {
  }

  lemma FileParts()
    ensures Part(7) + Part(8) + Part(9) == FILE_COLUMNS
  {
  }

  lemma HostParts()
    ensures Part(10) + Part(11) == HOST_COLUMNS
  {
  }

  lemma UsageParts()
    ensures Part(12) == NAME_COLUMNS && Part(13) == USAGE_COLUMNS && Part(14) + Part(15) == MEMORY_COLUMNS
  {
  }

  lemma RequestPart()
    ensures Part(16) == REQUEST_COLUMNS
  {
  }

  lemma RunParts()
    ensures Part(17) == RUN_COLUMNS && Part(18) == NETWORK_COLUMNS
  {
  }

  /** The columns of the policies from number `i` on. */
  function PartsFrom(i: nat): seq<Column>
    requires i <= 19
    decreases 19 - i
  {
    if i == 19 then [] else Part(i) + PartsFrom(i + 1)
  }

  lemma {:induction false} PartsAre(i: nat)
    requires i <= 19
    ensures PolicyColumns(JobFinishPolicies()[i..]) == PartsFrom(i)
    decreases 19 - i
  {
    hide JobFinishPolicies, SkipColumns, ValueColumn;
    var ps := JobFinishPolicies();
    if i == 19 {
      assert ps[19..] == [];
    } else {
      PartsAre(i + 1);
      assert ps[i..][0] == ps[i] && ps[i..][1..] == ps[i + 1..];
    }
  }

  lemma Joined(a: seq<Column>, b: seq<Column>, c: seq<Column>)
    ensures a + b + c == a + (b + c)
  {
  }

  lemma {:induction false} LateSections()
    ensures PartsFrom(12) == SectionsFrom(4)
  {
    UsageParts();
    RequestPart();
    RunParts();
    hide Part, Section;
    assert Section(4) == NAME_COLUMNS && Section(5) == USAGE_COLUMNS && Section(6) == MEMORY_COLUMNS by { SectionsAre(); }
    assert Section(7) == REQUEST_COLUMNS && Section(8) == RUN_COLUMNS && Section(9) == NETWORK_COLUMNS by { SectionsAre(); }
    assert PartsFrom(18) == SectionsFrom(9) by { assert PartsFrom(19) == SectionsFrom(10); }
    assert PartsFrom(16) == SectionsFrom(7) by { assert PartsFrom(17) == SectionsFrom(8); }
    Joined(Part(14), Part(15), PartsFrom(16));
    assert PartsFrom(14) == Part(14) + (Part(15) + PartsFrom(16));
    assert PartsFrom(14) == SectionsFrom(6);
    assert PartsFrom(13) == SectionsFrom(5);
  }

  lemma SectionsAre()
    ensures Section(0) == HEADER_COLUMNS && Section(1) == JOB_COLUMNS && Section(2) == FILE_COLUMNS
    ensures Section(3) == HOST_COLUMNS && Section(4) == NAME_COLUMNS && Section(5) == USAGE_COLUMNS
    ensures Section(6) == MEMORY_COLUMNS && Section(7) == REQUEST_COLUMNS && Section(8) == RUN_COLUMNS
    ensures Section(9) == NETWORK_COLUMNS
  {
  }

  lemma SevenJoined(a: seq<Column>, b: seq<Column>, c: seq<Column>, d: seq<Column>, e: seq<Column>, f: seq<Column>,
                    g: seq<Column>, x: seq<Column>)
    ensures a + b + c + d + e + f + g + x == a + (b + (c + (d + (e + (f + (g + x))))))
  {
    Joined(a + b + c + d + e + f, g, x);
    Joined(a + b + c + d + e, f, g + x);
    Joined(a + b + c + d, e, f + (g + x));
    Joined(a + b + c, d, e + (f + (g + x)));
    Joined(a + b, c, d + (e + (f + (g + x))));
    Joined(a, b, c + (d + (e + (f + (g + x)))));
  }

  lemma {:induction false} EarlySections()
    requires PartsFrom(12) == SectionsFrom(4)
    ensures PartsFrom(0) == SectionsFrom(1)
  {
    JobParts();
    FileParts();
    HostParts();
    SectionsAre();
    hide Part, Section;
    Joined(Part(10), Part(11), PartsFrom(12));
    assert PartsFrom(10) == Part(10) + (Part(11) + PartsFrom(12)) == SectionsFrom(3);
    Joined(Part(7) + Part(8), Part(9), PartsFrom(10));
    Joined(Part(7), Part(8), Part(9) + PartsFrom(10));
    assert PartsFrom(7) == Part(7) + (Part(8) + (Part(9) + PartsFrom(10))) == SectionsFrom(2);
    SevenJoined(Part(0), Part(1), Part(2), Part(3), Part(4), Part(5), Part(6), PartsFrom(7));
    assert PartsFrom(3) == Part(3) + (Part(4) + (Part(5) + (Part(6) + PartsFrom(7))));
    assert PartsFrom(0) == Part(0) + (Part(1) + (Part(2) + PartsFrom(3)));
  }

  /** Named and skipped columns together, header and body: the layout, column by column. */
  lemma {:induction false} PoliciesReadLayout()
    ensures PolicyColumns(HEADER_POLICIES) + PolicyColumns(JobFinishPolicies()) == Layout()
  {
    hide JobFinishPolicies, PolicyColumns, PartsFrom;
    HeaderColumnsAre();
    PartsAre(0);
    assert JobFinishPolicies()[0..] == JobFinishPolicies();
    LateSections();
    EarlySections();
    SectionsAre();
    hide Section;
  }

  // ----- What the policies recover from a record -----

  lemma {:induction false} FieldsConcat(a: seq<Cell>, b: seq<Cell>)
    ensures FieldsOf(a + b) == FieldsOf(a) + FieldsOf(b)
  {
    hide CellFields;
    if a == [] {
      assert a + b == b;
    } else {
      assert (a + b)[1..] == a[1..] + b;
      FieldsConcat(a[1..], b);
    }
  }

  lemma {:induction false} SkippedFields(cells: seq<Cell>)
    ensures SkipsFields(SkipsOf(cells)) == FieldsOf(cells)
  {
    if cells != [] {
      assert SkipsOf(cells)[1..] == SkipsOf(cells[1..]);
      SkippedFields(cells[1..]);
    }
  }

  lemma {:induction false} HostFields(rows: seq<seq<Field>>)
    requires forall i :: 0 <= i < |rows| ==> |rows[i]| == 1 && rows[i][0].StrField?
    ensures |Flatten(RowNames(rows))| == |rows|
    ensures forall i :: 0 <= i < |rows| ==> Flatten(RowNames(rows))[i] == rows[i][0].s
    ensures StrFields(Flatten(RowNames(rows))) == Flatten(rows)
  {
    if rows != [] {
      assert RowNames(rows)[1..] == RowNames(rows[1..]);
      HostFields(rows[1..]);
      assert rows[0] == [StrField(rows[0][0].s)];
      assert Flatten(RowNames(rows)) == [rows[0][0].s] + Flatten(RowNames(rows[1..]));
    }
  }

  lemma ValueCell(p: Policy, cells: seq<Cell>)
    requires |cells| == |p.skips| + 1 && (p.TuplePolicy? ==> |p.names| == 2)
    requires Fits(ValueColumn(p), cells[|p.skips|])
    ensures ValueFields(DataOf(p, cells)) == CellFields(cells[|p.skips|])
  {
    hide SkipsOf;
    var cell := cells[|p.skips|];
    if p.TuplePolicy? {
      HostFields(cell.rows);
    }
    hide Flatten;
  }

  lemma ValueHeld(p: Policy, cells: seq<Cell>, attrs: Attrs)
    requires |cells| == |p.skips| + 1 && (p.TuplePolicy? ==> |p.names| == 2)
    requires Fits(ValueColumn(p), cells[|p.skips|])
    requires Matches(p, DataOf(p, cells)) && Holds(p, DataOf(p, cells), attrs)
    ensures Recovered(ValueColumn(p), cells[|p.skips|], attrs)
  {
    hide SkipsOf, Double, Flatten, Elements, Doubled;
    if p.TuplePolicy? {
      HostSet(cells[|p.skips|].rows);
    }
  }

  lemma {:induction false} FieldsSplit(cells: seq<Cell>, n: nat)
    requires |cells| == n + 1
    ensures FieldsOf(cells) == FieldsOf(cells[..n]) + CellFields(cells[n])
  {
    hide CellFields;
    assert cells == cells[..n] + [cells[n]];
    FieldsConcat(cells[..n], [cells[n]]);
    assert [cells[n]][1..] == [];
    assert FieldsOf([cells[n]]) == CellFields(cells[n]) + FieldsOf([]);
  }

  lemma CellsSplit(p: Policy, cells: seq<Cell>)
    requires AllFit(SkipColumns(p.skips) + [ValueColumn(p)], cells)
    ensures |cells| == |p.skips| + 1 && Fits(ValueColumn(p), cells[|p.skips|])
    ensures AllFit(SkipColumns(p.skips), cells[..|p.skips|])
  {
    hide Fits, CellFields, ValueColumn;
    var n := |p.skips|;
    FitsConcat(SkipColumns(p.skips), [ValueColumn(p)], cells);
    assert cells[n..][0] == cells[n] && [ValueColumn(p)][0] == ValueColumn(p);
  }

  /** A policy's data are its cells: they match, and they are written alike. */
  lemma {:induction false} PolicyCells(p: Policy, cells: seq<Cell>)
    requires p.Valid() && (p.TuplePolicy? ==> |p.names| == 2)
    requires AllFit(SkipColumns(p.skips) + [ValueColumn(p)], cells)
    ensures |cells| == |p.skips| + 1 && Fits(ValueColumn(p), cells[|p.skips|])
    ensures Matches(p, DataOf(p, cells))
    ensures SkipsFields(DataOf(p, cells).skips) + ValueFields(DataOf(p, cells)) == FieldsOf(cells)
  {
    var n := |p.skips|;
    CellsSplit(p, cells);
    FieldsSplit(cells, n);
    SkipsMatched(p.skips, cells[..n]);
    SkippedFields(cells[..n]);
    ValueCell(p, cells);
    DataShape(p, cells);
    hide *;
  }

  lemma DataShape(p: Policy, cells: seq<Cell>)
    requires p.Valid() && |cells| == |p.skips| + 1 && (p.TuplePolicy? ==> |p.names| == 2)
    requires Fits(ValueColumn(p), cells[|p.skips|])
    ensures DataOf(p, cells).skips == SkipsOf(cells[..|p.skips|])
    ensures SkipsMatch(p.skips, SkipsOf(cells[..|p.skips|])) ==> Matches(p, DataOf(p, cells))
  {
    hide SkipsMatch, SkipsOf;
  }

  lemma HostSet(rows: seq<seq<Field>>)
    requires forall i :: 0 <= i < |rows| ==> |rows[i]| == 1 && rows[i][0].StrField?
    ensures Elements(Doubled(Flatten(RowNames(rows)))) == set i | 0 <= i < |rows| :: Double(rows[i][0].s)
  {
    hide Double, Flatten, RowNames;
    HostFields(rows);
    var hs := Doubled(Flatten(RowNames(rows)));
    assert |hs| == |rows| && forall i :: 0 <= i < |rows| ==> hs[i] == Double(rows[i][0].s);
  }

  lemma SkipsMatched(ss: seq<Skip>, cells: seq<Cell>)
    requires AllFit(SkipColumns(ss), cells)
    requires forall i :: 0 <= i < |ss| && ss[i].Counted? ==> |ss[i].names| >= 1
    ensures SkipsMatch(ss, SkipsOf(cells))
  {
    forall i | 0 <= i < |ss|
      ensures SkipMatches(ss[i], SkipsOf(cells)[i])
    {
      assert Fits(SkipColumns(ss)[i], cells[i]);
    }
  }

  predicate AllRecovered(cs: seq<Column>, cells: seq<Cell>, attrs: Attrs)
    requires AllFit(cs, cells)
  {
    forall c :: 0 <= c < |cs| ==> Recovered(cs[c], cells[c], attrs)
  }

  /** The cells and data of the first policy, and of the others. */
  lemma {:induction false} CellsOfFirst(ps: seq<Policy>, cells: seq<Cell>)
    requires ps != [] && OneNamePerRow(ps) && AllFit(PolicyColumns(ps), cells)
    ensures var p, n := ps[0], |ps[0].skips| + 1;
            && OneNamePerRow(ps[1..]) && n <= |cells|
            && PolicyColumns(ps) == (SkipColumns(p.skips) + [ValueColumn(p)]) + PolicyColumns(ps[1..])
            && AllFit(SkipColumns(p.skips) + [ValueColumn(p)], cells[..n])
            && AllFit(PolicyColumns(ps[1..]), cells[n..])
            && Fits(ValueColumn(p), cells[..n][n - 1])
            && AllData(ps, cells)[0] == DataOf(p, cells[..n])
            && AllData(ps, cells)[1..] == AllData(ps[1..], cells[n..])
            && FieldsOf(cells) == FieldsOf(cells[..n]) + FieldsOf(cells[n..])
  {
    hide DataOf, Fits, ValueColumn;
    var p, n := ps[0], |ps[0].skips| + 1;
    var own := SkipColumns(p.skips) + [ValueColumn(p)];
    FitsConcat(own, PolicyColumns(ps[1..]), cells);
    assert own[n - 1] == ValueColumn(p) && Fits(own[n - 1], cells[..n][n - 1]);
    assert cells == cells[..n] + cells[n..];
    FieldsConcat(cells[..n], cells[n..]);
  }

  lemma {:induction false} AllCells(ps: seq<Policy>, cells: seq<Cell>)
    requires OneNamePerRow(ps) && AllFit(PolicyColumns(ps), cells)
    ensures AllMatch(ps, AllData(ps, cells))
    ensures RecordFields(AllData(ps, cells)) == FieldsOf(cells)
    decreases |ps|
  {
    hide Matches, DataOf, Fits, SkipColumns, ValueColumn, PolicyColumns, AllFit, AllData, FieldsOf, SkipsFields, ValueFields;
    if ps == [] {
      NoCells(cells);
    } else {
      var n := |ps[0].skips| + 1;
      CellsOfFirst(ps, cells);
      PolicyCells(ps[0], cells[..n]);
      AllCells(ps[1..], cells[n..]);
      assert forall i :: 0 < i < |ps| ==> ps[i] == ps[1..][i - 1] && AllData(ps, cells)[i] == AllData(ps, cells)[1..][i - 1];
    }
  }

  lemma {:induction false} NoCells(cells: seq<Cell>)
    requires AllFit(PolicyColumns([]), cells)
    ensures cells == [] && FieldsOf(cells) == [] && AllData([], cells) == [] && RecordFields([]) == []
    ensures PolicyColumns([]) == []
  {
  }

  lemma {:induction false} CellsHeld(ps: seq<Policy>, cells: seq<Cell>, attrs: Attrs)
    requires OneNamePerRow(ps) && AllFit(PolicyColumns(ps), cells)
    requires AllMatch(ps, AllData(ps, cells)) && AllHold(ps, AllData(ps, cells), attrs)
    ensures AllRecovered(PolicyColumns(ps), cells, attrs)
    decreases |ps|
  {
    hide Matches, Holds, Recovered, DataOf, Fits, SkipColumns, ValueColumn, PolicyColumns, AllData;
    if ps == [] {
      NoCells(cells);
    } else {
      var p, n := ps[0], |ps[0].skips| + 1;
      CellsOfFirst(ps, cells);
      HoldSplit(ps, AllData(ps, cells), attrs);
      ValueHeld(p, cells[..n], attrs);
      CellsHeld(ps[1..], cells[n..], attrs);
      RecoveredJoin(p, ps[1..], cells, attrs);
    }
  }

  lemma HoldSplit(ps: seq<Policy>, ds: seq<PolicyData>, attrs: Attrs)
    requires ps != [] && AllMatch(ps, ds) && AllHold(ps, ds, attrs)
    ensures AllMatch(ps[1..], ds[1..]) && Holds(ps[0], ds[0], attrs) && AllHold(ps[1..], ds[1..], attrs)
  {
    hide Holds;
    assert forall i :: 0 <= i < |ps| - 1 ==> ps[1..][i] == ps[i + 1] && ds[1..][i] == ds[i + 1];
  }

  lemma {:induction false} RecoveredJoin(p: Policy, ps: seq<Policy>, cells: seq<Cell>, attrs: Attrs)
    requires var own := SkipColumns(p.skips) + [ValueColumn(p)];
             && AllFit(own + PolicyColumns(ps), cells)
             && AllFit(PolicyColumns(ps), cells[|own|..]) && AllFit(own, cells[..|own|])
             && Recovered(ValueColumn(p), cells[..|own|][|own| - 1], attrs)
             && AllRecovered(PolicyColumns(ps), cells[|own|..], attrs)
    ensures AllRecovered(SkipColumns(p.skips) + [ValueColumn(p)] + PolicyColumns(ps), cells, attrs)
  {
    hide Fits, ValueColumn;
    var own := SkipColumns(p.skips) + [ValueColumn(p)];
    var cs := own + PolicyColumns(ps);
    forall c | 0 <= c < |cs|
      ensures Recovered(cs[c], cells[c], attrs)
    {
      if c < |p.skips| {
        assert cs[c] == SkipColumn(p.skips[c]);
        assert cs[c].Other? || cs[c].OtherGroup?;
      } else if c >= |own| {
        assert cs[c] == PolicyColumns(ps)[c - |own|] && cells[c] == cells[|own|..][c - |own|];
      }
    }
  }

  lemma HostPoliciesPlain()
    ensures OneNamePerRow(HEADER_POLICIES) && OneNamePerRow(JobFinishPolicies())
  {
  }

  /**
   * A record written column by column, whatever its unnamed fields and however large its groups: parsing
   * gives every attribute the field under its own column.
   */
  lemma {:induction false} LayoutRecovered(cells: seq<Cell>, tail: string)
    requires AllFit(Layout(), cells) && AllReadable(FieldsOf(cells))
    requires SUPPORT_LSF_VERSION <= Double(cells[1].f.s)
    ensures var r := ParseJobFinish(RenderAll(FieldsOf(cells)) + tail);
            r.Ok? && AllRecovered(Layout(), cells, r.value)
  {
    hide JobFinishPolicies, PolicyColumns, Layout, AllData, ParseJobFinish, AllReadable, FieldsOf, Fits, Recovered, AllHold,
         AllMatch, RecordFields;
    var hs, ps := HEADER_POLICIES, JobFinishPolicies();
    PoliciesReadLayout();
    HeaderColumnsAre();
    HostPoliciesPlain();
    FitsConcat(PolicyColumns(hs), PolicyColumns(ps), cells);
    var header, body := AllData(hs, cells[..3]), AllData(ps, cells[3..]);
    AllCells(hs, cells[..3]);
    AllCells(ps, cells[3..]);
    assert cells == cells[..3] + cells[3..];
    FieldsConcat(cells[..3], cells[3..]);
    VersionCell(cells[..3]);
    JobFinishRoundTrip(header, body, tail);
    var attrs := ParseJobFinish(RenderAll(FieldsOf(cells)) + tail).value;
    CellsHeld(hs, cells[..3], attrs);
    CellsHeld(ps, cells[3..], attrs);
    forall c | 0 <= c < |Layout()|
      ensures Recovered(Layout()[c], cells[c], attrs)
    {
      if c < 3 {
        assert Layout()[c] == PolicyColumns(hs)[c] && cells[..3][c] == cells[c];
      } else {
        assert Layout()[c] == PolicyColumns(ps)[c - 3] && cells[3..][c - 3] == cells[c];
      }
    }
  }

  lemma {:induction false} VersionCell(cells: seq<Cell>)
    requires AllFit(PolicyColumns(HEADER_POLICIES), cells) && OneNamePerRow(HEADER_POLICIES)
    ensures |cells| == 3 && cells[1].Single? && cells[1].f.StrField?
    ensures |AllData(HEADER_POLICIES, cells)| == 3
    ensures AllData(HEADER_POLICIES, cells)[1].StrData? && AllData(HEADER_POLICIES, cells)[1].s == cells[1].f.s
  {
    HeaderColumnsAre();
    hide Double;
    assert Fits(PolicyColumns(HEADER_POLICIES)[1], cells[1]);
    var rest := HEADER_POLICIES[1..];
    assert AllData(HEADER_POLICIES, cells)[1..] == AllData(rest, cells[1..]);
    assert AllData(rest, cells[1..])[0] == DataOf(rest[0], cells[1..][..1]);
  }
}
