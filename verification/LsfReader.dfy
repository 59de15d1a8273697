/** The tokenizer of LSF accounting lines and the printer it has to undo. */
module LsfReader {
  import opened Wrappers
  import opened Decimals

  // ----- The tokenizer -----

  /** A quote followed by a blank, the text that may close a string field. */
  predicate IsClose(line: string, p: int) {
    0 <= p && p + 1 < |line| && line[p] == '"' && line[p + 1] == ' '
  }

  /** `line.index('" ', from)`; `None` is `ValueError`. */
  function FindClose(line: string, from: nat): (r: Option<nat>)
    ensures r.Some? ==> from <= r.value && IsClose(line, r.value)
    ensures forall p :: from <= p < (if r.Some? then r.value else |line|) ==> !IsClose(line, p)
    decreases |line| - from
  {
    if from + 1 >= |line| then None
    else if IsClose(line, from) then Some(from)
    else FindClose(line, from + 1)
  }

  /** `line.index(' ', from)`; `None` is `ValueError`. */
  function FindBlank(line: string, from: nat): (r: Option<nat>)
    ensures r.Some? ==> from <= r.value < |line| && line[r.value] == ' '
    ensures forall p :: from <= p < (if r.Some? then r.value else |line|) ==> line[p] != ' '
    decreases |line| - from
  {
    if from >= |line| then None
    else if line[from] == ' ' then Some(from)
    else FindBlank(line, from + 1)
  }

  /** The two tests under which a closing candidate at `p` is taken for a doubled quote. */
  predicate Escaped(line: string, offset: nat, p: nat)
    requires offset < p < |line|
  {
    || (p > offset + 1 && line[p - 1] == '"' && line[p - 2] != '"')
    || (p > 2 && line[p - 3] == line[p - 2] == line[p - 1] == line[p] == '"')
  }

  /** Where the string field that opens at `offset` closes, looking beyond `start`. */
  function ScanString(line: string, offset: nat, start: nat): (r: Option<nat>)
    requires offset <= start
    ensures r.Some? ==> start < r.value && IsClose(line, r.value)
    decreases |line| - start
  {
    match FindClose(line, start + 1)
    case None => None
    case Some(p) => if Escaped(line, offset, p) then ScanString(line, offset, p + 1) else Some(p)
  }

  predicate AtLineEnd(line: string, offset: nat) {
    offset >= |line| || line[offset] == '\r' || line[offset] == '\n'
  }

  /** The raw text of the field at `offset`, and the offset after it. */
  function ReadField(line: string, offset: nat): (r: Option<(string, nat)>)
    ensures r.Some? ==> offset < r.value.1 <= |line|
  {
    if AtLineEnd(line, offset) then None
    else if line[offset] == '"' then
      match ScanString(line, offset, offset)
      case None => None
      case Some(p) => Some((line[offset..p + 1], p + 2))
    else
      match FindBlank(line, offset + 1)
      case None => None
      case Some(p) => Some((line[offset..p + 1], p + 1))
  }

  class LSBAcctLineReader {
    const line: string
    var offset: nat

    constructor (line: string)
      ensures this.line == line && offset == 0
    {
      this.line := line;
      offset := 0;
    }

    method GotoBegin()
      modifies this
      ensures offset == 0
    {
      offset := 0;
    }

    /** A failed read leaves the offset alone; a successful one moves forward, inside the line. */
    method ReadNextField() returns (raw: Option<string>)
      modifies this
      ensures match ReadField(line, old(offset))
              case None => raw == None && offset == old(offset)
              case Some((text, next)) => raw == Some(text) && offset == next
      ensures raw.Some? ==> old(offset) < offset <= |line|
    {
      hide FindClose, FindBlank;
      if AtLineEnd(line, offset) {
        return None;
      }
      if line[offset] == '"' {
        var startLookFor := offset;
        while true
          invariant offset == old(offset) <= startLookFor
          invariant ScanString(line, offset, offset) == ScanString(line, offset, startLookFor)
          decreases |line| - startLookFor
        {
          var found := FindClose(line, startLookFor + 1);
          if found == None {
            return None;
          }
          var pos := found.value;
          if pos > offset + 1 && line[pos - 1] == '"' && line[pos - 2] != '"' {
            startLookFor := pos + 1;
          } else if pos > 2 && line[pos - 3] == line[pos - 2] == line[pos - 1] == line[pos] == '"' {
            startLookFor := pos + 1;
          } else {
            raw := Some(line[offset..pos + 1]);
            offset := pos + 2;
            return;
          }
        }
      } else {
        var found := FindBlank(line, offset + 1);
        if found == None {
          return None;
        }
        raw := Some(line[offset..found.value + 1]);
        offset := found.value + 1;
      }
    }
  }

  /** Every field `ReadField` yields from `offset` to the first failed read. */
  function Tokens(line: string, offset: nat): seq<string>
    decreases |line| - offset
  {
    match ReadField(line, offset)
    case None => []
    case Some((text, next)) => [text] + Tokens(line, next)
  }

  // ----- The printer -----

  /** An integer, a quoted string, or other text without quotes, such as a decimal number. */
  datatype Field = IntField(n: int) | StrField(s: string) | TextField(t: string)

  /** Doubles the quotes inside a string. */
  function Double(s: string): (d: string)
    ensures |d| >= |s|
  {
    if s == [] then []
    else Double(s[..|s| - 1]) + if s[|s| - 1] == '"' then "\"\"" else [s[|s| - 1]]
  }

  /** The text of a field as the tokenizer returns it: unquoted text keeps its blank. */
  function Raw(f: Field): (t: string)
    ensures t != []
  {
    match f
    case IntField(n) => PrintInt(n) + " "
    case StrField(s) => "\"" + Double(s) + "\""
    case TextField(t) => t + " "
  }

  function Render(f: Field): (t: string)
    ensures t != []
  {
    match f
    case IntField(n) => PrintInt(n) + " "
    case StrField(s) => "\"" + Double(s) + "\" "
    case TextField(t) => t + " "
  }

  function RenderAll(fs: seq<Field>): string {
    if fs == [] then "" else Render(fs[0]) + RenderAll(fs[1..])
  }

  function Raws(fs: seq<Field>): (r: seq<string>)
    ensures |r| == |fs|
  {
    if fs == [] then [] else [Raw(fs[0])] + Raws(fs[1..])
  }

  predicate StartsQuoteBlank(s: string) {
    |s| >= 2 && s[0] == '"' && s[1] == ' '
  }

  predicate EndsTwoQuotes(s: string) {
    |s| >= 2 && s[|s| - 2] == s[|s| - 1] == '"'
  }

  /** The strings whose printed form the tokenizer recognises, decided on the string itself. */
  predicate Quotable(s: string) {
    && s != "\""
    && !StartsQuoteBlank(s)
    && !EndsTwoQuotes(s)
  }

  /** The unquoted texts the tokenizer recognises: only the first character may be a blank. */
  predicate Plain(t: string) {
    && t != "" && t[0] != '"' && t[0] != '\r' && t[0] != '\n'
    && ' ' !in t[1..]
  }

  predicate Readable(f: Field) {
    match f
    case IntField(_) => true
    case StrField(s) => Quotable(s)
    case TextField(t) => Plain(t)
  }

  predicate AllReadable(fs: seq<Field>) {
    forall i :: 0 <= i < |fs| ==> Readable(fs[i])
  }

  // ----- Doubling keeps the string apart -----

  lemma {:induction false} DoubleInjective(s: string, t: string)
    requires Double(s) == Double(t)
    ensures s == t
  {
    if s == [] || t == [] {
    } else {
      var s', t' := s[..|s| - 1], t[..|t| - 1];
      var d := Double(s);
      var a, b := s[|s| - 1], t[|t| - 1];
      assert d[|d| - 1] == a == b;
      assert Double(s') == d[..|d| - if a == '"' then 2 else 1] == Double(t');
      DoubleInjective(s', t');
      assert s == s' + [a] && t == t' + [b];
    }
  }

  // ----- Runs of quotes -----

  /** How many quotes end `t`. */
  function Run(t: string): (n: nat)
    ensures n <= |t|
  {
    if t != [] && t[|t| - 1] == '"' then 1 + Run(t[..|t| - 1]) else 0
  }

  lemma {:induction false} RunIs(t: string, k: nat)
    requires k <= |t|
    ensures k <= Run(t) <==> forall i :: |t| - k <= i < |t| ==> t[i] == '"'
  {
    if k > 0 {
      RunIs(t[..|t| - 1], k - 1);
    }
  }

  lemma {:induction false} RunConcat(a: string, b: string)
    ensures Run(a + b) == if Run(b) == |b| then |b| + Run(a) else Run(b)
  {
    if b == [] {
      assert a + b == a;
    } else {
      assert (a + b)[..|a + b| - 1] == a + b[..|b| - 1];
      RunConcat(a, b[..|b| - 1]);
    }
  }

  lemma {:induction false} RunDouble(s: string)
    ensures Run(Double(s)) == 2 * Run(s)
    ensures Run(s) == |s| ==> |Double(s)| == 2 * |s|
    ensures Run(s) < |s| ==> Run(Double(s)) < |Double(s)|
  {
    if s != [] {
      var s' := s[..|s| - 1];
      RunDouble(s');
      var e := if s[|s| - 1] == '"' then "\"\"" else [s[|s| - 1]];
      RunConcat(Double(s'), e);
      if s[|s| - 1] == '"' {
        assert e[..1] == "\"" && e[..1][..0] == [];
        assert Run(e) == 2;
      } else {
        assert Run(e) == 0;
      }
    }
  }

  /** A non-quote inside the doubled text stands for a character of the string itself. */
  lemma {:induction false} DoubleSplit(s: string, j: nat) returns (k: nat)
    requires j < |Double(s)| && Double(s)[j] != '"'
    ensures k < |s| && s[k] == Double(s)[j] && Double(s)[..j] == Double(s[..k])
  {
    var s' := s[..|s| - 1];
    if j < |Double(s')| {
      k := DoubleSplit(s', j);
      assert s'[..k] == s[..k];
      assert Double(s)[..j] == Double(s')[..j];
    } else {
      k := |s| - 1;
      assert j == |Double(s')|;
    }
  }

  lemma {:induction false} DoubleJoin(s: string, k: nat)
    requires k < |s| && s[k] != '"'
    ensures |Double(s[..k])| < |Double(s)|
    ensures Double(s)[..|Double(s[..k])|] == Double(s[..k])
    ensures Double(s)[|Double(s[..k])|] == s[k]
  {
    var s' := s[..|s| - 1];
    if k < |s| - 1 {
      DoubleJoin(s', k);
      assert s'[..k] == s[..k];
    }
  }

  // ----- Escaping decided by the run of quotes that ends at a candidate -----

  predicate FieldStart(line: string, offset: nat) {
    offset <= |line| && (offset > 0 ==> line[offset - 1] == ' ')
  }

  lemma EscapedByRun(line: string, offset: nat, p: nat)
    requires FieldStart(line, offset) && offset < p < |line|
    requires line[offset] == '"' && line[p] == '"'
    ensures Escaped(line, offset, p)
            <==> (var n := Run(line[offset..p + 1]); (n == 2 && p > offset + 1) || n >= 4)
  {
    var u := line[offset..p + 1];
    RunIs(u, 2);
    assert u[|u| - 1] == line[p] && u[|u| - 2] == line[p - 1];
    if |u| >= 3 {
      RunIs(u, 3);
      assert u[|u| - 3] == line[p - 2];
    }
    if |u| >= 4 {
      RunIs(u, 4);
      assert u[|u| - 4] == line[p - 3];
    }
  }

  /** The scan stops at `e` exactly when `e` is the first candidate that is not escaped. */
  lemma {:induction false} ScanStopsAt(line: string, offset: nat, start: nat, e: nat)
    requires offset <= start < e
    ensures ScanString(line, offset, start) == Some(e)
            <==> IsClose(line, e) && !Escaped(line, offset, e)
                 && forall p :: start < p < e && IsClose(line, p) ==> Escaped(line, offset, p)
    decreases |line| - start
  {
    match FindClose(line, start + 1)
    case None =>
    case Some(p) =>
      if Escaped(line, offset, p) && p < e {
        if p + 1 < e {
          ScanStopsAt(line, offset, p + 1, e);
          assert !IsClose(line, p + 1);
        }
      }
  }

  // ----- The tokenizer undoes the printer -----

  predicate At(line: string, offset: nat, text: string) {
    offset + |text| <= |line| && line[offset..offset + |text|] == text
  }

  lemma AtConcat(line: string, offset: nat, a: string, b: string)
    ensures At(line, offset, a + b) <==> At(line, offset, a) && At(line, offset + |a|, b)
  {
    if offset + |a + b| <= |line| {
      var u := line[offset..offset + |a + b|];
      assert u[..|a|] == line[offset..offset + |a|];
      assert u[|a|..] == line[offset + |a|..offset + |a| + |b|];
      assert u == u[..|a|] + u[|a|..];
      assert (a + b)[..|a|] == a && (a + b)[|a|..] == b;
    }
  }

  lemma AtIndex(line: string, offset: nat, text: string, i: nat)
    requires At(line, offset, text) && i < |text|
    ensures line[offset + i] == text[i]
  {
    assert line[offset..offset + |text|][i] == text[i];
  }

  lemma AtPrefix(line: string, offset: nat, text: string, k: nat)
    requires At(line, offset, text) && k <= |text|
    ensures At(line, offset, text[..k])
  {
    assert line[offset..offset + k] == line[offset..offset + |text|][..k];
  }

  lemma {:induction false} RunOfOpened(s: string)
    ensures Run("\"" + Double(s)) == 2 * Run(s) + if Run(s) == |s| then 1 else 0
  {
    RunDouble(s);
    assert "\""[..0] == "" && Run("\"") == 1;
    RunConcat("\"", Double(s));
  }

  lemma {:induction false} RunOfClosed(s: string)
    ensures Run("\"" + Double(s) + "\"") == 2 * Run(s) + if Run(s) == |s| then 2 else 1
  {
    RunOfOpened(s);
    assert "\""[..0] == "" && Run("\"") == 1;
    RunConcat("\"" + Double(s), "\"");
  }

  /** A candidate after the string's first `k` characters is missed only if these are one lone quote. */
  lemma InnerRun(line: string, offset: nat, p: nat, s: string, k: nat)
    requires FieldStart(line, offset) && offset < p < |line| && line[p] == '"'
    requires 0 < k < |s| && s[k] == ' '
    requires p + 1 == offset + 1 + |Double(s[..k])| && At(line, offset, "\"" + Double(s[..k]))
    ensures Escaped(line, offset, p) <==> !(k == 1 && s[0] == '"')
  {
    var t := s[..k];
    AtIndex(line, offset, "\"" + Double(t), 0);
    RunOfOpened(t);
    RunIs(line[offset..p + 1], 1);
    EscapedByRun(line, offset, p);
    RunIs(t, |t|);
    assert t[0] == s[0];
  }

  lemma {:induction false} InnerCandidate(line: string, offset: nat, s: string, p: nat)
    requires FieldStart(line, offset) && At(line, offset, "\"" + Double(s) + "\" ")
    requires offset < p <= offset + |Double(s)| && IsClose(line, p)
    ensures Escaped(line, offset, p) || StartsQuoteBlank(s)
  {
    var d := Double(s);
    var field := "\"" + d + "\" ";
    var j := p - offset;
    AtIndex(line, offset, field, j + 1);
    AtIndex(line, offset, field, j);
    assert j < |d| && d[j] == ' ';
    var k := DoubleSplit(s, j);
    assert field[..j + 1] == "\"" + d[..j];
    AtPrefix(line, offset, field, j + 1);
    InnerRun(line, offset, p, s, k);
  }

  lemma {:induction false} QuoteBlankIsTaken(line: string, offset: nat, s: string)
    requires FieldStart(line, offset) && At(line, offset, "\"" + Double(s) + "\" ")
    requires StartsQuoteBlank(s)
    ensures offset + 2 <= offset + |Double(s)| && IsClose(line, offset + 2) && !Escaped(line, offset, offset + 2)
  {
    var d := Double(s);
    var field := "\"" + d + "\" ";
    DoubleJoin(s, 1);
    assert s[..1][..0] == [] && Double(s[..1]) == "\"\"";
    assert field[..3] == "\"" + d[..2];
    AtPrefix(line, offset, field, 3);
    AtIndex(line, offset, field, 2);
    AtIndex(line, offset, field, 3);
    assert d[..2][1] == d[1];
    InnerRun(line, offset, offset + 2, s, 1);
  }

  /** The true end is accepted unless the string is a lone quote or ends with two of them. */
  lemma {:induction false} EndCandidate(line: string, offset: nat, s: string)
    requires FieldStart(line, offset) && At(line, offset, "\"" + Double(s) + "\" ")
    ensures IsClose(line, offset + |Double(s)| + 1)
    ensures !Escaped(line, offset, offset + |Double(s)| + 1) <==> s != "\"" && !EndsTwoQuotes(s)
  {
    hide Double, Run, Escaped, EndsTwoQuotes;
    var d := Double(s);
    var e := offset + |d| + 1;
    var field := "\"" + d + "\" ";
    AtIndex(line, offset, field, 0);
    AtIndex(line, offset, field, |d| + 1);
    AtIndex(line, offset, field, |d| + 2);
    assert line[offset..e + 1] == ("\"" + d) + "\"" by {
      assert field[..|d| + 2] == ("\"" + d) + "\"";
      AtPrefix(line, offset, field, |d| + 2);
    }
    RunOfEnd(s);
    RunOfClosed(s);
    EscapedByRun(line, offset, e);
  }

  lemma {:induction false} RunOfEnd(s: string)
    ensures Run(s) >= 2 <==> EndsTwoQuotes(s)
    ensures Run(s) == |s| == 1 <==> s == "\""
    ensures Double(s) == [] <==> s == []
  {
    if |s| >= 2 { RunIs(s, 2); }
    if |s| == 1 { RunIs(s, 1); assert s == [s[0]]; }
  }

  lemma {:induction false} ScanOfRendered(line: string, offset: nat, s: string)
    requires FieldStart(line, offset) && At(line, offset, "\"" + Double(s) + "\" ")
    ensures ScanString(line, offset, offset) == Some(offset + |Double(s)| + 1) <==> Quotable(s)
  {
    var e := offset + |Double(s)| + 1;
    EndCandidate(line, offset, s);
    forall p | offset < p < e && IsClose(line, p)
      ensures Escaped(line, offset, p) || StartsQuoteBlank(s)
    {
      InnerCandidate(line, offset, s, p);
    }
    if StartsQuoteBlank(s) {
      QuoteBlankIsTaken(line, offset, s);
    }
    ScanStopsAt(line, offset, offset, e);
  }

  /** One string field, anywhere on a line, is read back exactly when its content is quotable. */
  lemma {:induction false} StringFieldReadBack(line: string, offset: nat, s: string)
    requires FieldStart(line, offset) && At(line, offset, "\"" + Double(s) + "\" ")
    ensures Quotable(s) ==> ReadField(line, offset) == Some(("\"" + Double(s) + "\"", offset + |Double(s)| + 3))
    ensures !Quotable(s) ==> ReadField(line, offset) == None
                             || ReadField(line, offset).value.0 != "\"" + Double(s) + "\""
  {
    var d := Double(s);
    var field := "\"" + d + "\" ";
    AtIndex(line, offset, field, 0);
    AtPrefix(line, offset, field, |d| + 2);
    assert field[..|d| + 2] == "\"" + d + "\"";
    ScanOfRendered(line, offset, s);
    hide Double, Quotable, FindBlank, At;
    match ScanString(line, offset, offset)
    case None =>
    case Some(p) => assert |line[offset..p + 1]| == p + 1 - offset;
  }

  /** Unquoted text, anywhere on a line, is read back exactly when it is plain. */
  lemma {:induction false} TextFieldReadBack(line: string, offset: nat, t: string)
    requires FieldStart(line, offset) && At(line, offset, t + " ")
    ensures Plain(t) ==> ReadField(line, offset) == Some((t + " ", offset + |t| + 1))
    ensures !Plain(t) ==> ReadField(line, offset) == None || ReadField(line, offset).value.0 != t + " "
  {
    var field, end := t + " ", offset + |t|;
    forall i | 0 <= i <= |t|
      ensures line[offset + i] == field[i]
    {
      AtIndex(line, offset, field, i);
    }
    if t != "" && ' ' in t[1..] {
      var k :| 0 <= k < |t[1..]| && t[1..][k] == ' ';
      BlankInside(line, offset, field, k + 1);
    } else if Plain(t) {
      forall p | offset < p < end
        ensures line[p] != ' '
      {
        assert line[offset + (p - offset)] == field[p - offset] == t[1..][p - offset - 1];
      }
      assert line[offset] == field[0] && line[offset + |t|] == ' ';
      assert FindBlank(line, offset + 1) == Some(end);
    }
  }

  /** A blank inside the text ends the field before the text does. */
  lemma BlankInside(line: string, offset: nat, field: string, k: nat)
    requires At(line, offset, field) && 0 < k < |field| - 1 && line[offset + k] == ' '
    requires field[|field| - 1] == ' '
    ensures ReadField(line, offset) == None || ReadField(line, offset).value.0 != field
  {
    match ReadField(line, offset)
    case None =>
    case Some((text, next)) =>
      if line[offset] != '"' {
        assert |text| <= k + 1;
      }
  }

  lemma IntFieldReadBack(line: string, offset: nat, n: int)
    requires FieldStart(line, offset) && At(line, offset, Render(IntField(n)))
    ensures ReadField(line, offset) == Some((Raw(IntField(n)), offset + |Render(IntField(n))|))
  {
    var t := PrintInt(n);
    assert Plain(t);
    TextFieldReadBack(line, offset, t);
  }

  predicate ReadsBack(line: string, offset: nat, f: Field) {
    match ReadField(line, offset)
    case None => false
    case Some((text, next)) => text == Raw(f)
  }

  /** A printed field is read back, in place, exactly when it is readable. */
  lemma FieldReadBack(line: string, offset: nat, f: Field)
    requires FieldStart(line, offset) && At(line, offset, Render(f))
    ensures ReadsBack(line, offset, f) <==> Readable(f)
    ensures Readable(f) ==> ReadField(line, offset).value.1 == offset + |Render(f)|
    ensures FieldStart(line, offset + |Render(f)|)
  {
    match f
    case IntField(n) => IntFieldReadBack(line, offset, n);
    case StrField(s) => StringFieldReadBack(line, offset, s);
    case TextField(t) => TextFieldReadBack(line, offset, t);
    var t := Render(f);
    assert line[offset + |t| - 1] == line[offset..offset + |t|][|t| - 1] == ' ';
  }

  lemma {:induction false} NoTokens(line: string, offset: nat)
    requires AtLineEnd(line, offset)
    ensures Tokens(line, offset) == []
  {
  }

  lemma {:induction false} TokensOfRendered(line: string, offset: nat, fs: seq<Field>, end: nat)
    requires FieldStart(line, offset) && At(line, offset, RenderAll(fs))
    requires end == offset + |RenderAll(fs)| && AtLineEnd(line, end)
    ensures Tokens(line, offset) == Raws(fs) <==> AllReadable(fs)
    decreases |fs|
  {
    if fs == [] {
      NoTokens(line, offset);
    } else {
      hide At, AtLineEnd, ReadField, Render, Raw, Readable, AllReadable, Tokens;
      var f, rest := fs[0], fs[1..];
      var next := HeadReadBack(line, offset, fs);
      TokensOfRendered(line, next, rest, end);
      AllReadableCons(f, rest);
      assert fs == [f] + rest;
      if Readable(f) {
        TokensStep(line, offset, f, rest, next);
      } else {
        TokensMissed(line, offset, f, rest);
      }
    }
  }

  lemma HeadReadBack(line: string, offset: nat, fs: seq<Field>) returns (next: nat)
    requires FieldStart(line, offset) && fs != [] && At(line, offset, RenderAll(fs))
    ensures next + |RenderAll(fs[1..])| == offset + |RenderAll(fs)|
    ensures FieldStart(line, next) && At(line, next, RenderAll(fs[1..]))
    ensures Readable(fs[0]) ==> ReadField(line, offset) == Some((Raw(fs[0]), next))
    ensures !Readable(fs[0]) ==> !ReadsBack(line, offset, fs[0])
  {
    hide At, ReadField, Render, Raw, Readable;
    next := offset + |Render(fs[0])|;
    RenderedSplit(line, offset, fs);
    FieldReadBack(line, offset, fs[0]);
  }

  lemma {:induction false} RenderedSplit(line: string, offset: nat, fs: seq<Field>)
    requires fs != [] && At(line, offset, RenderAll(fs))
    ensures At(line, offset, Render(fs[0])) && At(line, offset + |Render(fs[0])|, RenderAll(fs[1..]))
    ensures |RenderAll(fs)| == |Render(fs[0])| + |RenderAll(fs[1..])|
  {
    hide At, Render;
    AtConcat(line, offset, Render(fs[0]), RenderAll(fs[1..]));
  }

  lemma AllReadableCons(f: Field, rest: seq<Field>)
    ensures AllReadable([f] + rest) <==> Readable(f) && AllReadable(rest)
  {
    var fs := [f] + rest;
    if AllReadable(fs) {
      forall i | 0 <= i < |rest|
        ensures Readable(rest[i])
      {
        assert rest[i] == fs[i + 1];
      }
      assert fs[0] == f;
    }
  }

  lemma {:induction false} TokensStep(line: string, offset: nat, f: Field, rest: seq<Field>, next: nat)
    requires ReadField(line, offset) == Some((Raw(f), next))
    ensures Tokens(line, offset) == Raws([f] + rest) <==> Tokens(line, next) == Raws(rest)
  {
    assert ([f] + rest)[1..] == rest;
    assert Raws([f] + rest) == [Raw(f)] + Raws(rest);
    assert Tokens(line, offset) == [Raw(f)] + Tokens(line, next);
    assert ([Raw(f)] + Tokens(line, next))[1..] == Tokens(line, next);
    assert ([Raw(f)] + Raws(rest))[1..] == Raws(rest);
  }

  lemma {:induction false} TokensMissed(line: string, offset: nat, f: Field, rest: seq<Field>)
    requires !ReadsBack(line, offset, f)
    ensures Tokens(line, offset) != Raws([f] + rest)
  {
    assert Raws([f] + rest)[0] == Raw(f);
    assert Tokens(line, offset) == [] || Tokens(line, offset)[0] != Raw(f);
  }

  /** The whole line: repeated reads return exactly the printed fields, in order, iff all are readable. */
  lemma {:induction false} TokenizerUndoesPrinter(fs: seq<Field>, eol: string)
    requires eol == "" || eol[0] == '\n' || eol[0] == '\r'
    ensures Tokens(RenderAll(fs) + eol, 0) == Raws(fs) <==> AllReadable(fs)
  {
    TokensOfRendered(RenderAll(fs) + eol, 0, fs, |RenderAll(fs)|);
  }

  /** A single quote is one of the strings the heuristics get wrong: the field never closes. */
  lemma LoneQuoteIsLost()
    ensures ReadField("\"\"\"\" ", 0) == None
  {
    var line := "\"\"\"\" ";
    assert Escaped(line, 0, 3) by { assert line[0..4] == "\"\"\"\""; }
    assert FindClose(line, 1) == Some(3);
    assert ScanString(line, 0, 0) == ScanString(line, 0, 4);
  }

  // ----- Any line -----

  /** The field at `offset` ends with the character at `p`. */
  predicate EndsAt(line: string, offset: nat, p: nat) {
    && offset < p < |line|
    && if line[offset] == '"' then
         IsClose(line, p) && !Escaped(line, offset, p)
         && forall q :: offset < q < p && IsClose(line, q) ==> Escaped(line, offset, q)
       else
         line[p] == ' ' && forall q :: offset < q < p ==> line[q] != ' '
  }

  /**
   * On any line: a field is read exactly if the line goes on and the field ends somewhere, and then it is the
   * text up to there, without the blank behind a quoted field.
   */
  lemma FieldExactly(line: string, offset: nat, p: nat)
    ensures !AtLineEnd(line, offset) && EndsAt(line, offset, p)
            <==> ReadField(line, offset).Some? && p < |line| && offset < p
                 && ReadField(line, offset).value.0 == line[offset..p + 1]
                 && ReadField(line, offset).value.1 == p + if line[offset] == '"' then 2 else 1
  {
    hide Escaped, FindClose, FindBlank, ScanString;
    if !AtLineEnd(line, offset) && offset < p < |line| {
      if line[offset] == '"' {
        ScanStopsAt(line, offset, offset, p);
        match ScanString(line, offset, offset)
        case None =>
        case Some(e) => assert |line[offset..e + 1]| == e + 1 - offset && |line[offset..p + 1]| == p + 1 - offset;
      } else {
        BlankIs(line, offset + 1, p);
        match FindBlank(line, offset + 1)
        case None =>
        case Some(e) => assert |line[offset..e + 1]| == e + 1 - offset && |line[offset..p + 1]| == p + 1 - offset;
      }
    }
  }

  lemma {:induction false} BlankIs(line: string, from: nat, p: nat)
    requires from <= p < |line|
    ensures FindBlank(line, from) == Some(p) <==> line[p] == ' ' && forall q :: from <= q < p ==> line[q] != ' '
  {
  }
}
