/** Decimal text: what `str(n)` and `"%d"` print, and what `int(text)` reads back. */
module Decimals {
  import opened Wrappers

  predicate IsDigit(c: char) {
    '0' <= c <= '9'
  }

  predicate AllDigits(s: string) {
    forall i :: 0 <= i < |s| ==> IsDigit(s[i])
  }

  function DigitChar(d: nat): (c: char)
    requires d < 10
    ensures IsDigit(c)
  {
    '0' + d as char
  }

  function DigitValue(c: char): (d: nat)
    requires IsDigit(c)
    ensures d < 10 && DigitChar(d) == c
  {
    c as int - '0' as int
  }

  function PrintNat(n: nat): (s: string)
    ensures s != [] && AllDigits(s)
  {
    if n < 10 then [DigitChar(n)] else PrintNat(n / 10) + [DigitChar(n % 10)]
  }

  function ReadNat(s: string): nat
    requires AllDigits(s)
  {
    if s == [] then 0 else 10 * ReadNat(s[..|s| - 1]) + DigitValue(s[|s| - 1])
  }

  lemma {:induction false} ReadPrintNat(n: nat)
    ensures ReadNat(PrintNat(n)) == n
  {
    if n < 10 {
      assert [DigitChar(n)][..0] == [];
    } else {
      ReadPrintNat(n / 10);
      var s := PrintNat(n);
      assert s[..|s| - 1] == PrintNat(n / 10);
    }
  }

  lemma {:induction false} PrintNatInjective(m: nat, n: nat)
    requires PrintNat(m) == PrintNat(n)
    ensures m == n
  {
    ReadPrintNat(m);
    ReadPrintNat(n);
  }

  function PrintInt(n: int): (s: string)
    ensures s != [] && (forall i :: 0 <= i < |s| ==> IsDigit(s[i]) || s[i] == '-')
  {
    if n < 0 then "-" + PrintNat(-n) else PrintNat(n)
  }

  /** ASCII white space, which `int` ignores around the digits. */
  predicate IsSpace(c: char) {
    c == ' ' || 9 <= c as int <= 13 || 28 <= c as int <= 31
  }

  function TrimLeft(s: string): (t: string)
    ensures |t| <= |s|
    ensures t != [] ==> !IsSpace(t[0])
  {
    if s != [] && IsSpace(s[0]) then TrimLeft(s[1..]) else s
  }

  function TrimRight(s: string): (t: string)
    ensures t <= s
    ensures t != [] ==> !IsSpace(t[|t| - 1])
  {
    if s != [] && IsSpace(s[|s| - 1]) then TrimRight(s[..|s| - 1]) else s
  }

  /** Digits with single underscores between them, the body of an integer text. */
  predicate IsDigitGroup(s: string) {
    && s != []
    && IsDigit(s[0]) && IsDigit(s[|s| - 1])
    && (forall i :: 0 <= i < |s| ==> IsDigit(s[i]) || s[i] == '_')
    && (forall i :: 0 <= i < |s| - 1 ==> IsDigit(s[i]) || IsDigit(s[i + 1]))
  }

  function DropUnderscores(s: string): (t: string)
    requires forall i :: 0 <= i < |s| ==> IsDigit(s[i]) || s[i] == '_'
    ensures AllDigits(t)
  {
    if s == [] then []
    else if s[0] == '_' then DropUnderscores(s[1..])
    else [s[0]] + DropUnderscores(s[1..])
  }

  function Unsigned(s: string): (r: Option<int>)
    ensures r.Some? ==> r.value >= 0
  {
    if IsDigitGroup(s) then Some(ReadNat(DropUnderscores(s))) else None
  }

  /** `int(text)`; `None` is `ValueError`. */
  function PyInt(text: string): Option<int> {
    var s := TrimLeft(TrimRight(text));
    if s != [] && (s[0] == '+' || s[0] == '-') then
      match Unsigned(s[1..])
      case None => None
      case Some(n) => Some(if s[0] == '-' then -n else n)
    else
      match Unsigned(s)
      case None => None
      case Some(n) => Some(n)
  }

  lemma {:induction false} DropNothing(s: string)
    requires AllDigits(s)
    ensures DropUnderscores(s) == s
  {
    if s != [] {
      DropNothing(s[1..]);
    }
  }

  lemma {:induction false} UnsignedPrintNat(n: nat)
    ensures Unsigned(PrintNat(n)) == Some(n)
  {
    DropNothing(PrintNat(n));
    ReadPrintNat(n);
  }

  /** `int` reads every printed integer back, also with the blank that ends an accounting field. */
  lemma {:induction false} PyIntPrintInt(n: int)
    ensures PyInt(PrintInt(n)) == Some(n)
    ensures PyInt(PrintInt(n) + " ") == Some(n)
  {
    var s := PrintInt(n);
    UnsignedPrintNat(if n < 0 then -n else n);
    assert (s + " ")[..|s + " "| - 1] == s;
    assert !IsSpace(s[0]) && !IsSpace(s[|s| - 1]);
    assert TrimRight(s) == s && TrimRight(s + " ") == s && TrimLeft(s) == s;
    if n < 0 {
      assert s[1..] == PrintNat(-n);
    }
  }

  // ----- Which texts `int` reads -----

  predicate Blanks(s: string) {
    forall i :: 0 <= i < |s| ==> IsSpace(s[i])
  }

  /** Blanks, at most one sign, digits with single underscores between them, and blanks. */
  predicate IntegerText(text: string, l: string, sign: string, digits: string, r: string) {
    text == l + sign + digits + r && Blanks(l) && Blanks(r)
    && (sign == "" || sign == "+" || sign == "-") && IsDigitGroup(digits)
  }

  lemma {:induction false} TrimsLeft(l: string, s: string)
    requires Blanks(l) && (s == "" || !IsSpace(s[0]))
    ensures TrimLeft(l + s) == s
  {
    if l == "" {
      assert l + s == s;
    } else {
      assert (l + s)[1..] == l[1..] + s && (l + s)[0] == l[0];
      TrimsLeft(l[1..], s);
    }
  }

  lemma {:induction false} TrimsRight(s: string, r: string)
    requires Blanks(r) && (s == "" || !IsSpace(s[|s| - 1]))
    ensures TrimRight(s + r) == s
  {
    if r == "" {
      assert s + r == s;
    } else {
      var n := |r| - 1;
      assert (s + r)[..|s| + n] == s + r[..n] && (s + r)[|s| + n] == r[n];
      TrimsRight(s, r[..n]);
    }
  }

  lemma {:induction false} LeftCut(s: string) returns (l: string)
    ensures Blanks(l) && l + TrimLeft(s) == s
  {
    if s != "" && IsSpace(s[0]) {
      l := LeftCut(s[1..]);
      l := [s[0]] + l;
    } else {
      l := "";
    }
  }

  lemma {:induction false} RightIsBlank(s: string)
    ensures Blanks(s[|TrimRight(s)|..])
  {
    if s != "" && IsSpace(s[|s| - 1]) {
      var n := |s| - 1;
      RightIsBlank(s[..n]);
      var k := |TrimRight(s)|;
      assert forall i :: k <= i < n ==> s[..n][k..][i - k] == s[i];
    }
  }

  lemma RightCut(s: string) returns (r: string)
    ensures Blanks(r) && TrimRight(s) + r == s
  {
    hide Blanks;
    RightIsBlank(s);
    r := s[|TrimRight(s)|..];
  }

  function SignedValue(sign: string, digits: string): int
    requires IsDigitGroup(digits)
  {
    var n: int := ReadNat(DropUnderscores(digits));
    if sign == "-" then -n else n
  }

  lemma {:induction false} Trimmed(text: string, l: string, s: string, r: string)
    requires text == l + s + r && Blanks(l) && Blanks(r) && s != "" && !IsSpace(s[0]) && !IsSpace(s[|s| - 1])
    ensures TrimLeft(TrimRight(text)) == s
  {
    hide TrimLeft, TrimRight, Blanks;
    assert (l + s)[|l + s| - 1] == s[|s| - 1];
    TrimsRight(l + s, r);
    TrimsLeft(l, s);
  }

  lemma SignedRead(sign: string, digits: string)
    requires IsDigitGroup(digits) && (sign == "" || sign == "+" || sign == "-")
    ensures var s := sign + digits;
            && s != "" && !IsSpace(s[0]) && !IsSpace(s[|s| - 1])
            && (if s[0] == '+' || s[0] == '-' then sign == [s[0]] && s[1..] == digits else sign == "" && s == digits)
  {
    var s := sign + digits;
    assert s[|s| - 1] == digits[|digits| - 1] && (sign == "" ==> s == digits);
    assert sign != "" ==> s[0] == sign[0] && s[1..] == digits;
  }

  lemma Regrouped(l: string, sign: string, digits: string, r: string)
    ensures l + sign + digits + r == l + (sign + digits) + r
  {
  }

  /** Such a text is read as its digits with its sign. */
  lemma IntegerIsRead(text: string, l: string, sign: string, digits: string, r: string)
    requires IntegerText(text, l, sign, digits, r)
    ensures PyInt(text) == Some(SignedValue(sign, digits))
  {
    hide TrimLeft, TrimRight, DropUnderscores, ReadNat, IsDigitGroup, Blanks;
    SignedRead(sign, digits);
    Regrouped(l, sign, digits, r);
    Trimmed(text, l, sign + digits, r);
  }

  /** No other text is read. */
  lemma OnlyIntegersRead(text: string)
    requires PyInt(text).Some?
    ensures exists l, sign, digits, r :: IntegerText(text, l, sign, digits, r)
  {
    hide TrimLeft, TrimRight, DropUnderscores, ReadNat, IsDigitGroup, Blanks;
    var r := RightCut(text);
    var l := LeftCut(TrimRight(text));
    var s := TrimLeft(TrimRight(text));
    assert text == l + s + r;
    if s != [] && (s[0] == '+' || s[0] == '-') {
      Resigned(text, l, s, r);
      assert IntegerText(text, l, [s[0]], s[1..], r);
    } else {
      assert l + "" + s + r == l + s + r;
      assert IntegerText(text, l, "", s, r);
    }
  }

  lemma Resigned(text: string, l: string, s: string, r: string)
    requires text == l + s + r && s != ""
    ensures text == l + [s[0]] + s[1..] + r
  {
    assert s == [s[0]] + s[1..];
  }

  /** Concretely. */
  lemma IntegersRead()
    ensures PyInt(" +1_0\n") == Some(10) && PyInt("1__0") == None && PyInt("1.0 ") == None
  {
    assert DropUnderscores("1_0") == "10" by {
      assert "1_0"[1..] == "_0" && "_0"[1..] == "0" && "0"[1..] == "" && DropUnderscores("0") == "0";
    }
    assert "10"[..1] == "1" && "1"[..0] == "" && ReadNat("1") == 1 && ReadNat("10") == 10;
    assert " +1_0\n" == " " + "+" + "1_0" + "\n";
    assert IntegerText(" +1_0\n", " ", "+", "1_0", "\n");
    IntegerIsRead(" +1_0\n", " ", "+", "1_0", "\n");
    assert !IsDigitGroup("1__0") by { assert "1__0"[1] == "1__0"[2] == '_'; }
    assert !IsDigitGroup("1.0") by { assert "1.0"[1] == '.'; }
    assert "1__0" + "" == "1__0" && "1.0" + " " == "1.0 ";
    NotAnInteger("1__0", "");
    NotAnInteger("1.0", " ");
  }

  lemma NoBlanks()
    ensures Blanks("")
  {
  }

  lemma NotAnInteger(s: string, r: string)
    requires s != "" && IsDigit(s[0]) && IsDigit(s[|s| - 1]) && !IsDigitGroup(s) && Blanks(r)
    ensures PyInt(s + r) == None
  {
    hide TrimLeft, TrimRight, IsDigitGroup, Blanks;
    TrimsRight(s, r);
    assert Blanks("") by { NoBlanks(); }
    TrimsLeft("", s);
    assert "" + s == s;
  }
}
