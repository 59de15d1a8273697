/** At which field of a JOB_FINISH record each attribute is found. */
module LsfPositions {
  import opened Wrappers
  import opened LsfReader
  import opened LsfEvents
  import opened LsfRecords
  import opened LsfLayout

  // ----- By position -----

  function RowFields(cell: Cell): nat {
    if cell.Rows? then |Flatten(cell.rows)| else 0
  }

  /** The fields of the groups' rows before column `c`. */
  function Extra(cells: seq<Cell>, c: nat): nat
    requires c <= |cells|
  {
    if c == 0 then 0 else Extra(cells, c - 1) + RowFields(cells[c - 1])
  }

  /** A column's first field stands at its own number, shifted by the rows of the groups before it. */
  lemma {:induction false} FieldAt(cells: seq<Cell>, c: nat)
    requires c < |cells|
    ensures |FieldsOf(cells[..c])| == c + Extra(cells, c)
    ensures c + Extra(cells, c) < |FieldsOf(cells)|
    ensures FieldsOf(cells)[c + Extra(cells, c)] == CellFields(cells[c])[0]
  {
    FieldsBefore(cells, c);
    assert cells == cells[..c] + cells[c..];
    FieldsConcat(cells[..c], cells[c..]);
    assert cells[c..][0] == cells[c];
  }

  lemma {:induction false} FieldsBefore(cells: seq<Cell>, c: nat)
    requires c <= |cells|
    ensures |FieldsOf(cells[..c])| == c + Extra(cells, c)
  {
    if c == 0 {
      assert cells[..0] == [];
    } else {
      FieldsBefore(cells, c - 1);
      assert cells[..c][..c - 1] == cells[..c - 1];
      FieldsSplit(cells[..c], c - 1);
    }
  }

  lemma {:induction false} NoRowsBetween(cells: seq<Cell>, c: nat, d: nat)
    requires c <= d <= |cells| && forall i :: c <= i < d ==> cells[i].Single?
    ensures Extra(cells, d) == Extra(cells, c)
  {
    if c < d {
      NoRowsBetween(cells, c, d - 1);
    }
  }

  predicate IsGroup(c: Column) {
    c.HostGroup? || c.OtherGroup?
  }

  /** The column at which section `k` begins. */
  function Start(k: nat): nat
    requires k <= 10
  {
    if k == 0 then 0 else Start(k - 1) + |Section(k - 1)|
  }

  lemma {:induction false} SectionStarts(k: nat)
    requires k <= 10
    ensures Start(k) <= |Layout()| && Layout()[Start(k)..] == SectionsFrom(k)
  {
    hide Section;
    if k > 0 {
      SectionStarts(k - 1);
      assert Layout()[Start(k)..] == Layout()[Start(k - 1)..][|Section(k - 1)|..];
    }
  }

  lemma {:induction false} ColumnAt(k: nat, i: nat)
    requires k < 10 && i < |Section(k)|
    ensures Start(k) + i < |Layout()| && Layout()[Start(k) + i] == Section(k)[i]
  {
    hide Section;
    SectionStarts(k);
    assert Layout()[Start(k)..][i] == Section(k)[i];
  }

  lemma {:induction false} StartsAre()
    ensures Start(0) == 0 && Start(1) == 3 && Start(2) == 13 && Start(3) == 21 && Start(4) == 24
    ensures Start(5) == 27 && Start(6) == 54 && Start(7) == 56 && Start(8) == 82 && Start(9) == 93
  {
  }

  lemma GroupsAre(k: nat, i: nat)
    requires k < 10 && i < |Section(k)|
    ensures IsGroup(Section(k)[i]) <==> (k == 3 && i >= 1) || (k == 7 && (i == 21 || i == 22)) || (k == 9 && i == 1)
  {
  }

  /** Within a section no rows come in between where there is no group. */
  lemma {:induction false} NoRowsWithin(cells: seq<Cell>, k: nat, i: nat, j: nat)
    requires AllFit(Layout(), cells) && k < 10 && i <= j <= |Section(k)|
    requires forall m :: i <= m < j ==> !IsGroup(Section(k)[m])
    ensures Start(k) + j <= |cells| && Extra(cells, Start(k) + j) == Extra(cells, Start(k) + i)
  {
    hide Section, Layout, Extra, Start;
    SectionStarts(k);
    SectionInside(k);
    forall m | Start(k) + i <= m < Start(k) + j
      ensures cells[m].Single?
    {
      ColumnAt(k, m - Start(k));
      assert Fits(Layout()[m], cells[m]);
    }
    NoRowsBetween(cells, Start(k) + i, Start(k) + j);
  }

  lemma {:induction false} SectionInside(k: nat)
    requires k < 10
    ensures Start(k) + |Section(k)| <= |Layout()| && (k < 9 ==> Start(k + 1) == Start(k) + |Section(k)|)
  {
    hide Section;
    SectionStarts(k);
  }

  lemma {:induction false} GroupRows(cells: seq<Cell>, k: nat, i: nat)
    requires AllFit(Layout(), cells) && k < 10 && i < |Section(k)|
    ensures Start(k) + i < |cells|
    ensures Extra(cells, Start(k) + i + 1) == Extra(cells, Start(k) + i) + RowFields(cells[Start(k) + i])
  {
    hide Section, Layout;
    ColumnAt(k, i);
  }

  /** How far the columns from here on are shifted by the groups' rows. */
  function AfterHosts(cells: seq<Cell>): nat
    requires |cells| == 102
  {
    RowFields(cells[22]) + RowFields(cells[23])
  }

  function AfterUsage(cells: seq<Cell>): nat
    requires |cells| == 102
  {
    AfterHosts(cells) + RowFields(cells[77]) + RowFields(cells[78])
  }

  function AfterNetwork(cells: seq<Cell>): nat
    requires |cells| == 102
  {
    AfterUsage(cells) + RowFields(cells[94])
  }

  lemma SectionLengths()
    ensures |Section(0)| == 3 && |Section(1)| == 10 && |Section(2)| == 8 && |Section(3)| == 3 && |Section(4)| == 3
    ensures |Section(5)| == 27 && |Section(6)| == 2 && |Section(7)| == 26 && |Section(8)| == 11 && |Section(9)| == 9
  {
  }

  lemma {:induction false} LayoutLength()
    ensures |Layout()| == 102
  {
    hide Section;
    SectionLengths();
    StartsAre();
    SectionStarts(10);
    SectionStarts(9);
    assert SectionsFrom(10) == [] && Start(10) == Start(9) + |Section(9)|;
  }

  /** The shifts at the columns that matter, and just after the groups. */
  lemma {:induction false} ShiftsBefore(cells: seq<Cell>)
    requires AllFit(Layout(), cells)
    ensures |cells| == 102
    ensures forall c :: 0 <= c <= 22 ==> Extra(cells, c) == 0
    ensures Extra(cells, 23) == RowFields(cells[22])
    ensures forall c :: 24 <= c <= 77 ==> Extra(cells, c) == AfterHosts(cells)
  {
    hide Section, Layout, RowFields;
    LayoutLength();
    SectionLengths();
    StartsAre();
    hide Start;
    forall c | 0 <= c <= 22
      ensures Extra(cells, c) == 0
    {
      assert Extra(cells, 0) == 0;
      Shift(cells, 0, 3);
      Shift(cells, 1, 10);
      Shift(cells, 2, 8);
      ShiftTo(cells, if c <= 3 then 0 else if c <= 13 then 1 else if c <= 21 then 2 else 3, c);
    }
    GroupRows(cells, 3, 1);
    GroupRows(cells, 3, 2);
    forall c | 24 <= c <= 77
      ensures Extra(cells, c) == AfterHosts(cells)
    {
      Shift(cells, 4, 3);
      Shift(cells, 5, 27);
      Shift(cells, 6, 2);
      ShiftTo(cells, if c <= 27 then 4 else if c <= 54 then 5 else if c <= 56 then 6 else 7, c);
    }
  }

  /** No rows from the beginning of a section to its end. */
  lemma {:induction false} Shift(cells: seq<Cell>, k: nat, n: nat)
    requires AllFit(Layout(), cells) && k < 9 && n == |Section(k)| && k != 3 && k != 7
    ensures Start(k + 1) <= |cells| && Extra(cells, Start(k + 1)) == Extra(cells, Start(k))
  {
    hide Section, Layout, Extra, Start;
    SectionInside(k);
    ShiftTo(cells, k, Start(k + 1));
  }

  /** No rows from the beginning of a section to a column in it that comes before any group. */
  lemma {:induction false} ShiftTo(cells: seq<Cell>, k: nat, c: nat)
    requires AllFit(Layout(), cells) && k < 10 && Start(k) <= c <= Start(k) + |Section(k)|
    requires k == 3 ==> c <= Start(k) + 1
    requires k == 7 ==> c <= Start(k) + 21
    requires k == 9 ==> c <= Start(k) + 1
    ensures c <= |cells| && Extra(cells, c) == Extra(cells, Start(k))
  {
    hide Section, Layout, Extra, Start;
    forall m | 0 <= m < c - Start(k)
      ensures !IsGroup(Section(k)[m])
    {
      GroupsAre(k, m);
    }
    NoRowsWithin(cells, k, 0, c - Start(k));
  }

  lemma {:induction false} ShiftsAfter(cells: seq<Cell>)
    requires AllFit(Layout(), cells)
    ensures |cells| == 102
    ensures forall c :: 79 <= c <= 94 ==> Extra(cells, c) == AfterUsage(cells)
    ensures forall c :: 95 <= c <= 102 ==> Extra(cells, c) == AfterNetwork(cells)
  {
    hide Section, Layout, RowFields;
    LayoutLength();
    ShiftsBefore(cells);
    SectionLengths();
    StartsAre();
    hide Start, AfterHosts;
    GroupRows(cells, 7, 21);
    GroupRows(cells, 7, 22);
    assert Extra(cells, 79) == AfterUsage(cells);
    forall c | 79 <= c <= 94
      ensures Extra(cells, c) == AfterUsage(cells)
    {
      Beyond(cells, 7, 23, if c <= 82 then c - 56 else 26);
      Shift(cells, 8, 11);
      if c > 82 {
        ShiftTo(cells, if c <= 93 then 8 else 9, c);
      }
    }
    GroupRows(cells, 9, 1);
    forall c | 95 <= c <= 102
      ensures Extra(cells, c) == AfterNetwork(cells)
    {
      Beyond(cells, 9, 2, c - 93);
    }
  }

  /** No rows after the last group of a section. */
  lemma {:induction false} Beyond(cells: seq<Cell>, k: nat, i: nat, j: nat)
    requires AllFit(Layout(), cells) && ((k == 7 && i == 23) || (k == 9 && i == 2)) && i <= j <= |Section(k)|
    ensures Start(k) + j <= |cells| && Extra(cells, Start(k) + j) == Extra(cells, Start(k) + i)
  {
    hide Section, Layout, Extra, Start;
    forall m | i <= m < j
      ensures !IsGroup(Section(k)[m])
    {
      GroupsAre(k, m);
    }
    NoRowsWithin(cells, k, i, j);
  }

  // ----- Every attribute -----

  predicate NumberAt(attrs: Attrs, name: string, fs: seq<Field>, p: nat) {
    p < |fs| && fs[p].IntField? && name in attrs && attrs[name] == IntV(fs[p].n)
  }

  predicate WordsAt(attrs: Attrs, name: string, fs: seq<Field>, p: nat) {
    p < |fs| && fs[p].StrField? && name in attrs && attrs[name] == StrV(Double(fs[p].s))
  }

  /** The names of the `n` fields from position `p` on, as a set. */
  predicate HostsAt(attrs: Attrs, name: string, fs: seq<Field>, p: nat, n: nat) {
    && p + n <= |fs| && (forall i :: p <= i < p + n ==> fs[i].StrField?)
    && name in attrs && attrs[name] == Hosts(set i | p <= i < p + n :: Double(fs[i].s))
  }

  /** A column of one field, by section and place in it. */
  lemma {:induction false} OneField(cells: seq<Cell>, attrs: Attrs, k: nat, i: nat, p: nat)
    requires AllFit(Layout(), cells) && AllRecovered(Layout(), cells, attrs)
    requires k < 10 && i < |Section(k)| && Start(k) + i <= |cells| && p == Start(k) + i + Extra(cells, Start(k) + i)
    ensures Section(k)[i].Number? ==> NumberAt(attrs, Section(k)[i].name, FieldsOf(cells), p)
    ensures Section(k)[i].Words? ==> WordsAt(attrs, Section(k)[i].name, FieldsOf(cells), p)
    ensures Section(k)[i].HostGroup? ==> NumberAt(attrs, Section(k)[i].count, FieldsOf(cells), p)
  {
    hide Section, Layout, Start, Extra, FieldsOf, Double, Flatten;
    var c := Start(k) + i;
    ColumnAt(k, i);
    FieldAt(cells, c);
    assert Fits(Layout()[c], cells[c]) && Recovered(Layout()[c], cells[c], attrs);
  }

  lemma {:induction false} FlatHosts(rows: seq<seq<Field>>)
    requires forall i :: 0 <= i < |rows| ==> |rows[i]| == 1
    ensures |Flatten(rows)| == |rows| && forall i :: 0 <= i < |rows| ==> Flatten(rows)[i] == rows[i][0]
  {
    if rows != [] {
      FlatHosts(rows[1..]);
    }
  }

  /** What stands under a group of host names. */
  lemma {:induction false} HostCell(cells: seq<Cell>, attrs: Attrs, i: nat)
    requires AllFit(Layout(), cells) && AllRecovered(Layout(), cells, attrs) && (i == 1 || i == 2)
    ensures Section(3)[i].HostGroup? && Start(3) + i < |cells| && cells[Start(3) + i].Rows?
    ensures var rows := cells[Start(3) + i].rows;
            && (forall m :: 0 <= m < |rows| ==> |rows[m]| == 1 && rows[m][0].StrField?)
            && Section(3)[i].hosts in attrs
            && attrs[Section(3)[i].hosts] == Hosts(set m | 0 <= m < |rows| :: Double(rows[m][0].s))
  {
    hide Layout, Start, Double;
    ColumnAt(3, i);
    assert Fits(Layout()[Start(3) + i], cells[Start(3) + i]);
    assert Recovered(Layout()[Start(3) + i], cells[Start(3) + i], attrs);
  }

  /** The rows of a group of host names follow its count. */
  lemma {:induction false} HostsFollow(cells: seq<Cell>, attrs: Attrs, i: nat, p: nat)
    requires AllFit(Layout(), cells) && AllRecovered(Layout(), cells, attrs) && (i == 1 || i == 2)
    requires Start(3) + i <= |cells| && p == Start(3) + i + Extra(cells, Start(3) + i)
    ensures Section(3)[i].HostGroup? && Start(3) + i < |cells|
    ensures HostsAt(attrs, Section(3)[i].hosts, FieldsOf(cells), p + 1, RowFields(cells[Start(3) + i]))
  {
    hide Layout, Start, Extra, FieldsOf, Double, Flatten, Section, AllFit, AllRecovered;
    HostCell(cells, attrs, i);
    var rows := cells[Start(3) + i].rows;
    RowsFollow(cells, Start(3) + i);
    SameNames(rows, FieldsOf(cells), p + 1);
    FlatHosts(rows);
  }

  lemma RowsFollow(cells: seq<Cell>, c: nat)
    requires c < |cells| && cells[c].Rows? && forall i :: 0 <= i < |cells[c].rows| ==> |cells[c].rows[i]| == 1
    ensures var p, rows := c + Extra(cells, c), cells[c].rows;
            && p + 1 + |rows| <= |FieldsOf(cells)|
            && forall m :: 0 <= m < |rows| ==> FieldsOf(cells)[p + 1 + m] == rows[m][0]
  {
    hide Extra, FieldsOf, Flatten;
    var p, rows := c + Extra(cells, c), cells[c].rows;
    FlatHosts(rows);
    CellWhole(cells, c);
    var fs, own := FieldsOf(cells), [IntField(|rows|)] + Flatten(rows);
    forall m | 0 <= m < |rows|
      ensures fs[p + 1 + m] == rows[m][0]
    {
      assert fs[p..][..|own|][m + 1] == own[m + 1];
    }
  }

  lemma SameNames(rows: seq<seq<Field>>, fs: seq<Field>, p: nat)
    requires p + |rows| <= |fs|
    requires forall m :: 0 <= m < |rows| ==> |rows[m]| == 1 && rows[m][0].StrField? && fs[p + m] == rows[m][0]
    ensures forall i :: p <= i < p + |rows| ==> fs[i].StrField?
    ensures (set i | 0 <= i < |rows| :: Double(rows[i][0].s)) == set i | p <= i < p + |rows| :: Double(fs[i].s)
  {
    hide Double;
    forall i | p <= i < p + |rows|
      ensures fs[i] == rows[i - p][0]
    {
      assert fs[p + (i - p)] == rows[i - p][0];
    }
    forall i | 0 <= i < |rows|
      ensures Double(rows[i][0].s) in set j | p <= j < p + |rows| :: Double(fs[j].s)
    {
      assert fs[p + i] == rows[i][0];
    }
  }

  /** All fields of a cell stand together. */
  lemma {:induction false} CellWhole(cells: seq<Cell>, c: nat)
    requires c < |cells|
    ensures var p, own := c + Extra(cells, c), CellFields(cells[c]);
            p + |own| <= |FieldsOf(cells)| && FieldsOf(cells)[p..][..|own|] == own
  {
    hide CellFields, Extra;
    FieldAt(cells, c);
    assert cells == cells[..c] + cells[c..];
    FieldsConcat(cells[..c], cells[c..]);
    assert FieldsOf(cells[c..]) == CellFields(cells[c]) + FieldsOf(cells[c..][1..]);
  }

  /** The attributes before the second group. */
  predicate FirstAttributes(attrs: Attrs, fs: seq<Field>) {
    && WordsAt(attrs, "event_type", fs, 0) && WordsAt(attrs, "version", fs, 1)
    && NumberAt(attrs, "event_time", fs, 2) && NumberAt(attrs, "job_id", fs, 3)
    && NumberAt(attrs, "num_processors", fs, 6) && NumberAt(attrs, "submit_time", fs, 7)
    && NumberAt(attrs, "term_time", fs, 9) && NumberAt(attrs, "start_time", fs, 10)
    && WordsAt(attrs, "user_name", fs, 11) && WordsAt(attrs, "queue", fs, 12)
    && WordsAt(attrs, "working_dir", fs, 17) && WordsAt(attrs, "out_file", fs, 19) && WordsAt(attrs, "err_file", fs, 20)
    && NumberAt(attrs, "num_asked_hosts", fs, 22)
  }

  /** The others: `asked` and `exec` hosts, then `usage` and `network` fields in the rows of the later groups. */
  predicate LastAttributes(attrs: Attrs, fs: seq<Field>, asked: nat, exec: nat, usage: nat, network: nat) {
    var hosts := asked + exec;
    && HostsAt(attrs, "askedHosts", fs, 23, asked)
    && NumberAt(attrs, "num_exhosts", fs, 23 + asked)
    && HostsAt(attrs, "exec_hosts", fs, 24 + asked, exec)
    && WordsAt(attrs, "job_name", fs, 26 + hosts) && NumberAt(attrs, "idx", fs, 53 + hosts)
    && NumberAt(attrs, "max_rmem", fs, 54 + hosts) && NumberAt(attrs, "max_rswap", fs, 55 + hosts)
    && NumberAt(attrs, "avg_mem", fs, 81 + hosts + usage) && NumberAt(attrs, "run_time", fs, 92 + hosts + usage)
    && NumberAt(attrs, "num_alloc_slots", fs, 101 + hosts + usage + network)
  }

  /**
   * The 24 attributes of a parsed record, by position: at fixed fields before the first group, and shifted by
   * the rows of the groups after it.
   */
  lemma {:induction false} AttributesByPosition(cells: seq<Cell>, tail: string)
    requires AllFit(Layout(), cells) && AllReadable(FieldsOf(cells))
    requires |cells| > 1 && cells[1].Single? && cells[1].f.StrField? && SUPPORT_LSF_VERSION <= Double(cells[1].f.s)
    ensures |cells| == 102
    ensures var r := ParseJobFinish(RenderAll(FieldsOf(cells)) + tail);
            && r.Ok? && FirstAttributes(r.value, FieldsOf(cells))
            && LastAttributes(r.value, FieldsOf(cells), RowFields(cells[22]), RowFields(cells[23]),
                              RowFields(cells[77]) + RowFields(cells[78]), RowFields(cells[94]))
  {
    LayoutRecovered(cells, tail);
    var attrs := ParseJobFinish(RenderAll(FieldsOf(cells)) + tail).value;
    FirstFound(cells, attrs);
    LastFound(cells, attrs);
  }

  lemma {:induction false} FirstFound(cells: seq<Cell>, attrs: Attrs)
    requires AllFit(Layout(), cells) && AllRecovered(Layout(), cells, attrs)
    ensures FirstAttributes(attrs, FieldsOf(cells))
  {
    hide Layout, Extra, FieldsOf, NumberAt, WordsAt, Double;
    ShiftsBefore(cells);
    StartsAre();
    hide Start;
    HeaderNamesAre();
    OneField(cells, attrs, 0, 0, 0);
    OneField(cells, attrs, 0, 1, 1);
    OneField(cells, attrs, 0, 2, 2);
    JobNamesAre();
    OneField(cells, attrs, 1, 0, 3);
    OneField(cells, attrs, 1, 3, 6);
    OneField(cells, attrs, 1, 4, 7);
    OneField(cells, attrs, 1, 6, 9);
    OneField(cells, attrs, 1, 7, 10);
    OneField(cells, attrs, 1, 8, 11);
    OneField(cells, attrs, 1, 9, 12);
    OneField(cells, attrs, 2, 4, 17);
    OneField(cells, attrs, 2, 6, 19);
    OneField(cells, attrs, 2, 7, 20);
    OneField(cells, attrs, 3, 1, 22);
  }

  lemma HeaderNamesAre()
    ensures |Section(0)| == 3
    ensures Section(0)[0] == Words("event_type") && Section(0)[1] == Words("version") && Section(0)[2] == Number("event_time")
  {
  }

  lemma JobNamesAre()
    ensures |Section(1)| == 10 && |Section(2)| == 8 && |Section(3)| == 3
    ensures Section(1)[0] == Number("job_id") && Section(1)[3] == Number("num_processors")
    ensures Section(1)[4] == Number("submit_time") && Section(1)[6] == Number("term_time")
    ensures Section(1)[7] == Number("start_time") && Section(1)[8] == Words("user_name") && Section(1)[9] == Words("queue")
    ensures Section(2)[4] == Words("working_dir") && Section(2)[6] == Words("out_file") && Section(2)[7] == Words("err_file")
    ensures Section(3)[1] == HostGroup("num_asked_hosts", "askedHosts") && Section(3)[2] == HostGroup("num_exhosts", "exec_hosts")
  {
  }

  lemma LateNamesAre()
    ensures |Section(4)| == 3 && Section(4)[2] == Words("job_name") && |Section(5)| == 27 && Section(5)[26] == Number("idx")
    ensures |Section(6)| == 2 && Section(6)[0] == Number("max_rmem") && Section(6)[1] == Number("max_rswap")
    ensures |Section(7)| == 26 && Section(7)[25] == Number("avg_mem") && |Section(8)| == 11 && Section(8)[10] == Number("run_time")
    ensures |Section(9)| == 9 && Section(9)[8] == Number("num_alloc_slots")
  {
  }

  lemma {:induction false} LastFound(cells: seq<Cell>, attrs: Attrs)
    requires AllFit(Layout(), cells) && AllRecovered(Layout(), cells, attrs)
    ensures |cells| == 102
    ensures LastAttributes(attrs, FieldsOf(cells), RowFields(cells[22]), RowFields(cells[23]),
                           RowFields(cells[77]) + RowFields(cells[78]), RowFields(cells[94]))
  {
    hide Layout, Extra, FieldsOf, NumberAt, WordsAt, HostsAt, Double, Section, RowFields;
    ShiftsBefore(cells);
    ShiftsAfter(cells);
    StartsAre();
    hide Start;
    var asked := RowFields(cells[22]);
    var hosts, usage, all := AfterHosts(cells), AfterUsage(cells), AfterNetwork(cells);
    JobNamesAre();
    HostsFollow(cells, attrs, 1, 22);
    OneField(cells, attrs, 3, 2, 23 + asked);
    HostsFollow(cells, attrs, 2, 23 + asked);
    LateNamesAre();
    OneField(cells, attrs, 4, 2, 26 + hosts);
    OneField(cells, attrs, 5, 26, 53 + hosts);
    OneField(cells, attrs, 6, 0, 54 + hosts);
    OneField(cells, attrs, 6, 1, 55 + hosts);
    OneField(cells, attrs, 7, 25, 81 + usage);
    OneField(cells, attrs, 8, 10, 92 + usage);
    OneField(cells, attrs, 9, 8, 101 + all);
  }
}
