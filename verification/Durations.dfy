/** Durations as text: the printer with its strict comparisons, and the parser that searches for units. */
module Durations {
  import opened Wrappers
  import opened Decimals

  const MINUTE := 60
  const HOUR := 60 * 60
  const DAY := 24 * 60 * 60
  const WEEK := 7 * 24 * 60 * 60

  // ----- Parsing -----

  function DigitRun(t: string): (n: nat)
    ensures n <= |t| && AllDigits(t[..n]) && (n < |t| ==> !IsDigit(t[n]))
  {
    if t != "" && IsDigit(t[0]) then
      var n := 1 + DigitRun(t[1..]);
      assert t[..n] == [t[0]] + t[1..][..n - 1];
      n
    else 0
  }

  /** `re.search(r"([\d]+)u", t)`: the number of the leftmost match. */
  function FindUnit(t: string, u: char): Option<nat> {
    if t == "" then None
    else
      var n := DigitRun(t);
      if n > 0 && n < |t| && t[n] == u then Some(ReadNat(t[..n])) else FindUnit(t[1..], u)
  }

  datatype Unit = Unit(letter: char, seconds: nat)

  const UNITS: seq<Unit> :=
    [Unit('s', 1), Unit('m', MINUTE), Unit('h', HOUR), Unit('d', DAY), Unit('w', WEEK)]

  function ValueOf(c: Option<nat>, seconds: nat): nat {
    match c case None => 0 case Some(n) => seconds * n
  }

  /** What the units from position `i` on contribute. */
  function UnitsFrom(t: string, i: nat): nat
    decreases 5 - i
  {
    if i >= 5 then 0
    else ValueOf(FindUnit(t, UNITS[i].letter), UNITS[i].seconds) + UnitsFrom(t, i + 1)
  }

  method Str2Second(t: string) returns (secs: nat)
    ensures secs == UnitsFrom(t, 0)
  {
    hide FindUnit;
    secs := 0;
    for i := 0 to 5
      invariant secs + UnitsFrom(t, i) == UnitsFrom(t, 0)
    {
      var r := FindUnit(t, UNITS[i].letter);
      if r.Some? {
        secs := secs + UNITS[i].seconds * r.value;
      }
    }
  }

  // ----- Printing -----

  /** A number and the letter of its unit. */
  datatype Part = Part(count: nat, letter: char)

  function Render(parts: seq<Part>): string {
    if parts == [] then "" else PrintNat(parts[0].count) + [parts[0].letter] + Render(parts[1..])
  }

  /** The part of one unit is split off only if more than one whole unit is left. */
  function Above(seconds: int, unit: nat, letter: char): (seq<Part>, int)
    requires unit > 0
  {
    if seconds > unit then ([Part(seconds / unit, letter)], seconds % unit) else ([], seconds)
  }

  function Parts(seconds: int): seq<Part> {
    var (days, s1) := Above(seconds, DAY, 'd');
    var (hours, s2) := Above(s1, HOUR, 'h');
    var (mins, s3) := Above(s2, MINUTE, 'm');
    days + hours + mins + if s3 > 0 then [Part(s3, 's')] else []
  }

  method Second2Str(seconds: int) returns (timeStr: string)
    ensures timeStr == Render(Parts(seconds))
  {
    var left, parts := seconds, [];
    timeStr := "";
    assert Render(parts) == "";
    hide Render, PrintNat, Parts;
    if left > DAY {
      RenderMore(parts, Part(left / DAY, 'd'));
      timeStr := timeStr + PrintNat(left / DAY) + "d";
      parts := parts + [Part(left / DAY, 'd')];
      left := left % DAY;
    }
    ghost var (days, s1) := Above(seconds, DAY, 'd');
    assert parts == days && left == s1;
    if left > HOUR {
      RenderMore(parts, Part(left / HOUR, 'h'));
      timeStr := timeStr + PrintNat(left / HOUR) + "h";
      parts := parts + [Part(left / HOUR, 'h')];
      left := left % HOUR;
    }
    ghost var (hours, s2) := Above(s1, HOUR, 'h');
    assert parts == days + hours && left == s2;
    if left > MINUTE {
      RenderMore(parts, Part(left / MINUTE, 'm'));
      timeStr := timeStr + PrintNat(left / MINUTE) + "m";
      parts := parts + [Part(left / MINUTE, 'm')];
      left := left % MINUTE;
    }
    ghost var (mins, s3) := Above(s2, MINUTE, 'm');
    assert parts == days + hours + mins && left == s3;
    if left > 0 {
      RenderMore(parts, Part(left, 's'));
      timeStr := timeStr + PrintNat(left) + "s";
      parts := parts + [Part(left, 's')];
    }
    assert parts == days + hours + mins + if s3 > 0 then [Part(s3, 's')] else [];
    PartsAre(seconds);
  }

  lemma PartsAre(seconds: int)
    ensures var (days, s1) := Above(seconds, DAY, 'd');
            var (hours, s2) := Above(s1, HOUR, 'h');
            var (mins, s3) := Above(s2, MINUTE, 'm');
            Parts(seconds) == days + hours + mins + if s3 > 0 then [Part(s3, 's')] else []
  {
    hide Above;
  }

  lemma {:induction false} RenderMore(parts: seq<Part>, p: Part)
    ensures Render(parts + [p]) == Render(parts) + PrintNat(p.count) + [p.letter]
  {
    if parts == [] {
      assert [p][1..] == [] && [] + [p] == [p];
    } else {
      assert (parts + [p])[1..] == parts[1..] + [p];
      RenderMore(parts[1..], p);
    }
  }

  // ----- Round trip -----

  lemma {:induction false} RunOfNumber(digits: string, u: char, rest: string)
    requires AllDigits(digits) && !IsDigit(u)
    ensures DigitRun(digits + [u] + rest) == |digits|
  {
    if digits == "" {
      assert digits + [u] + rest == [u] + rest;
    } else {
      assert (digits + [u] + rest)[1..] == digits[1..] + [u] + rest;
      RunOfNumber(digits[1..], u, rest);
    }
  }

  /** The search passes over a number with another unit. */
  lemma {:induction false} OtherUnitSkipped(digits: string, v: char, rest: string, u: char)
    requires AllDigits(digits) && !IsDigit(v) && u != v
    ensures FindUnit(digits + [v] + rest, u) == FindUnit(rest, u)
  {
    var t := digits + [v] + rest;
    RunOfNumber(digits, v, rest);
    if digits == "" {
      assert t[1..] == rest;
    } else {
      assert t[1..] == digits[1..] + [v] + rest;
      OtherUnitSkipped(digits[1..], v, rest, u);
    }
  }

  /** The count of the first part with the given letter. */
  function CountOf(parts: seq<Part>, u: char): Option<nat> {
    if parts == [] then None
    else if parts[0].letter == u then Some(parts[0].count)
    else CountOf(parts[1..], u)
  }

  /** Searching printed parts for a unit finds the number printed with it. */
  lemma {:induction false} FindPrinted(parts: seq<Part>, u: char)
    requires forall i :: 0 <= i < |parts| ==> !IsDigit(parts[i].letter)
    ensures FindUnit(Render(parts), u) == CountOf(parts, u)
  {
    if parts != [] {
      var digits, v, rest := PrintNat(parts[0].count), parts[0].letter, Render(parts[1..]);
      var t := digits + [v] + rest;
      if v == u {
        RunOfNumber(digits, v, rest);
        assert t[..|digits|] == digits && t[|digits|] == u;
        ReadPrintNat(parts[0].count);
      } else {
        OtherUnitSkipped(digits, v, rest, u);
        FindPrinted(parts[1..], u);
      }
    }
  }

  /** What one splitting step takes off plus what it leaves is what it was given. */
  lemma {:induction false} SplitKeeps(seconds: nat, unit: nat, letter: char)
    requires unit > 0
    ensures var (parts, left) := Above(seconds, unit, letter);
            left >= 0 && seconds == ValueOf(CountOf(parts, letter), unit) + left
  {
  }

  lemma {:induction false} UnitsOf(t: string)
    ensures UnitsFrom(t, 0)
         == ValueOf(FindUnit(t, 's'), 1) + ValueOf(FindUnit(t, 'm'), MINUTE) + ValueOf(FindUnit(t, 'h'), HOUR)
            + ValueOf(FindUnit(t, 'd'), DAY) + ValueOf(FindUnit(t, 'w'), WEEK)
  {
    hide FindUnit;
    assert UnitsFrom(t, 5) == 0;
    assert UnitsFrom(t, 4) == ValueOf(FindUnit(t, 'w'), WEEK);
    assert UnitsFrom(t, 3) == ValueOf(FindUnit(t, 'd'), DAY) + UnitsFrom(t, 4);
    assert UnitsFrom(t, 2) == ValueOf(FindUnit(t, 'h'), HOUR) + UnitsFrom(t, 3);
    assert UnitsFrom(t, 1) == ValueOf(FindUnit(t, 'm'), MINUTE) + UnitsFrom(t, 2);
    assert UnitsFrom(t, 0) == ValueOf(FindUnit(t, 's'), 1) + UnitsFrom(t, 1);
  }

  /** The number found for a unit, for each piece the printed text is made of. */
  lemma {:induction false} FoundIn(days: seq<Part>, hours: seq<Part>, mins: seq<Part>, secs: seq<Part>, u: char)
    requires Optional(days, 'd') && Optional(hours, 'h') && Optional(mins, 'm') && Optional(secs, 's')
    ensures FindUnit(Render(days + hours + mins + secs), u)
         == if u == 'd' then CountOf(days, u) else if u == 'h' then CountOf(hours, u)
            else if u == 'm' then CountOf(mins, u) else CountOf(secs, u)
  {
    FindPrinted(days + hours + mins + secs, u);
    PartsCount(days, hours, mins, secs, u);
    hide FindUnit, Render;
  }

  /** Printing and parsing a duration gives it back, exact multiples of a unit included. */
  lemma DurationRoundTrip(n: nat)
    ensures UnitsFrom(Render(Parts(n)), 0) == n
  {
    hide FindUnit, Render;
    var (days, s1) := Above(n, DAY, 'd');
    SplitKeeps(n, DAY, 'd');
    var (hours, s2) := Above(s1, HOUR, 'h');
    SplitKeeps(s1, HOUR, 'h');
    var (mins, s3) := Above(s2, MINUTE, 'm');
    SplitKeeps(s2, MINUTE, 'm');
    var secs := if s3 > 0 then [Part(s3, 's')] else [];
    assert ValueOf(CountOf(secs, 's'), 1) == s3 && CountOf(secs, 'w') == None;
    assert Parts(n) == days + hours + mins + secs;
    hide Above, CountOf, Parts;
    UnitsOf(Render(Parts(n)));
    FoundIn(days, hours, mins, secs, 's');
    FoundIn(days, hours, mins, secs, 'm');
    FoundIn(days, hours, mins, secs, 'h');
    FoundIn(days, hours, mins, secs, 'd');
    FoundIn(days, hours, mins, secs, 'w');
  }

  predicate Optional(parts: seq<Part>, letter: char) {
    parts == [] || (|parts| == 1 && parts[0].letter == letter)
  }

  lemma {:induction false} CountSkips(a: seq<Part>, b: seq<Part>, letter: char, u: char)
    requires Optional(a, letter)
    ensures CountOf(a + b, u) == if u == letter && a != [] then CountOf(a, u) else CountOf(b, u)
  {
    if a == [] {
      assert a + b == b;
    } else {
      assert (a + b)[1..] == b;
    }
  }

  lemma {:induction false} PartsCount(days: seq<Part>, hours: seq<Part>, mins: seq<Part>, secs: seq<Part>, u: char)
    requires Optional(days, 'd') && Optional(hours, 'h') && Optional(mins, 'm')
    ensures CountOf(days + hours + mins + secs, u)
         == if u == 'd' && days != [] then CountOf(days, u)
            else if u == 'h' && hours != [] then CountOf(hours, u)
            else if u == 'm' && mins != [] then CountOf(mins, u)
            else CountOf(secs, u)
  {
    hide CountOf;
    assert days + hours + mins + secs == days + (hours + (mins + secs));
    CountSkips(days, hours + (mins + secs), 'd', u);
    CountSkips(hours, mins + secs, 'h', u);
    CountSkips(mins, secs, 'm', u);
  }

  // ----- Which numbers are printed -----

  function CountFor(parts: seq<Part>, u: char): nat {
    match CountOf(parts, u) case None => 0 case Some(n) => n
  }

  /**
   * A fair number of units with some rest: none if the rest is no more than one unit, and otherwise as many
   * as fit; but a single unit without a rest is left to the smaller units.
   */
  predicate Fair(count: nat, rest: int, unit: nat) {
    if count == 0 then rest <= unit else rest < unit && (count > 1 || rest > 0)
  }

  predicate AllFair(d: nat, h: nat, m: nat, sec: nat) {
    && Fair(d, h * HOUR + m * MINUTE + sec, DAY) && Fair(h, m * MINUTE + sec, HOUR) && Fair(m, sec, MINUTE)
  }

  lemma FairSplit(seconds: nat, unit: nat, letter: char)
    requires unit > 0
    ensures var (parts, left) := Above(seconds, unit, letter);
            && left >= 0 && seconds == CountFor(parts, letter) * unit + left && Fair(CountFor(parts, letter), left, unit)
            && (parts == [] || (|parts| == 1 && parts[0].letter == letter && parts[0].count > 0))
  {
    if seconds > unit {
      var q, l := seconds / unit, seconds % unit;
      assert seconds == q * unit + l && q >= 1;
    }
  }

  lemma FairOnlyOnce(c: nat, rest: nat, c': nat, rest': nat, unit: nat)
    requires unit > 0 && c * unit + rest == c' * unit + rest' && Fair(c, rest, unit) && Fair(c', rest', unit)
    ensures c == c' && rest == rest'
  {
    if c < c' {
      assert (c' - c) * unit == rest - rest';
      NoLess(c' - c, unit);
    } else if c' < c {
      assert (c - c') * unit == rest' - rest;
      NoLess(c - c', unit);
    }
  }

  lemma NoLess(n: nat, unit: nat)
    requires n >= 1
    ensures n * unit >= unit && (n >= 2 ==> n * unit >= 2 * unit)
  {
  }

  /** The four pieces of the printed text, the counts in them, and what each splitting step leaves. */
  lemma PiecesOf(n: nat)
    ensures var (days, s1) := Above(n, DAY, 'd');
            var (hours, s2) := Above(s1, HOUR, 'h');
            var (mins, s3) := Above(s2, MINUTE, 'm');
            && s1 >= 0 && s2 >= 0 && s3 >= 0
            && Optional(days, 'd') && Optional(hours, 'h') && Optional(mins, 'm')
            && n == CountFor(days, 'd') * DAY + s1 && Fair(CountFor(days, 'd'), s1, DAY)
            && s1 == CountFor(hours, 'h') * HOUR + s2 && Fair(CountFor(hours, 'h'), s2, HOUR)
            && s2 == CountFor(mins, 'm') * MINUTE + s3 && Fair(CountFor(mins, 'm'), s3, MINUTE)
  {
    hide Above, CountFor, Fair;
    FairSplit(n, DAY, 'd');
    var (days, s1) := Above(n, DAY, 'd');
    FairSplit(s1, HOUR, 'h');
    var (hours, s2) := Above(s1, HOUR, 'h');
    FairSplit(s2, MINUTE, 'm');
  }

  /** The count of each unit in the whole text is that of its piece. */
  lemma CountsOfPieces(days: seq<Part>, hours: seq<Part>, mins: seq<Part>, secs: seq<Part>)
    requires Optional(days, 'd') && Optional(hours, 'h') && Optional(mins, 'm') && Optional(secs, 's')
    ensures var all := days + hours + mins + secs;
            && CountFor(all, 'd') == CountFor(days, 'd') && CountFor(all, 'h') == CountFor(hours, 'h')
            && CountFor(all, 'm') == CountFor(mins, 'm') && CountFor(all, 's') == CountFor(secs, 's')
  {
    hide CountOf;
    PartsCount(days, hours, mins, secs, 'd');
    PartsCount(days, hours, mins, secs, 'h');
    PartsCount(days, hours, mins, secs, 'm');
    PartsCount(days, hours, mins, secs, 's');
    NothingElse(days, 'd');
    NothingElse(hours, 'h');
    NothingElse(mins, 'm');
    NothingElse(secs, 's');
  }

  /** The numbers printed for the units. */
  lemma PrintedCounts(n: nat)
    ensures var ps := Parts(n);
            var (d, h, m, sec) := (CountFor(ps, 'd'), CountFor(ps, 'h'), CountFor(ps, 'm'), CountFor(ps, 's'));
            d * DAY + h * HOUR + m * MINUTE + sec == n && AllFair(d, h, m, sec)
  {
    PartsAre(n);
    PiecesOf(n);
    hide Above, Parts, Fair;
    var (days, s1) := Above(n, DAY, 'd');
    var (hours, s2) := Above(s1, HOUR, 'h');
    var (mins, s3) := Above(s2, MINUTE, 'm');
    var secs := if s3 > 0 then [Part(s3, 's')] else [];
    assert CountFor(secs, 's') == s3;
    hide CountFor;
    CountsOfPieces(days, hours, mins, secs);
  }

  lemma {:induction false} NothingElse(parts: seq<Part>, letter: char)
    requires Optional(parts, letter)
    ensures forall u :: u != letter ==> CountOf(parts, u) == None
    ensures parts == [] ==> CountOf(parts, letter) == None
  {
    if parts != [] {
      assert parts[1..] == [];
    }
  }

  /** Days, hours, minutes and seconds are those printed exactly if they make up the duration and each is fair. */
  lemma PrintedExactly(n: nat, d: nat, h: nat, m: nat, sec: nat)
    ensures var ps := Parts(n);
            d == CountFor(ps, 'd') && h == CountFor(ps, 'h') && m == CountFor(ps, 'm') && sec == CountFor(ps, 's')
            <==> d * DAY + h * HOUR + m * MINUTE + sec == n && AllFair(d, h, m, sec)
  {
    PrintedCounts(n);
    var ps := Parts(n);
    hide Parts, CountFor;
    if d * DAY + h * HOUR + m * MINUTE + sec == n && AllFair(d, h, m, sec) {
      var (d', h', m', s') := (CountFor(ps, 'd'), CountFor(ps, 'h'), CountFor(ps, 'm'), CountFor(ps, 's'));
      hide Fair;
      FairOnlyOnce(d, h * HOUR + m * MINUTE + sec, d', h' * HOUR + m' * MINUTE + s', DAY);
      FairOnlyOnce(h, m * MINUTE + sec, h', m' * MINUTE + s', HOUR);
      FairOnlyOnce(m, sec, m', s', MINUTE);
    }
  }

  /** The parser knows weeks, which the printer does not use. */
  lemma {:induction false} WeeksParsed(n: nat)
    ensures UnitsFrom(PrintNat(n) + "w", 0) == n * WEEK
  {
    hide FindUnit, PrintNat;
    var parts := [Part(n, 'w')];
    assert parts[1..] == [] && Render([]) == "";
    assert Render(parts) == PrintNat(n) + "w" + "" == PrintNat(n) + "w";
    FindPrinted(parts, 's');
    FindPrinted(parts, 'm');
    FindPrinted(parts, 'h');
    FindPrinted(parts, 'd');
    FindPrinted(parts, 'w');
    hide Render;
    assert CountOf([], 's') == None && CountOf([], 'm') == None && CountOf([], 'h') == None && CountOf([], 'd') == None;
    UnitsOf(PrintNat(n) + "w");
  }

  /** Concretely: a day, an hour, a minute and a second; a day exactly; a day and an hour; and a week. */
  lemma PrintedConcretely()
    ensures Render(Parts(90061)) == "1d1h1m1s" && Render(Parts(86400)) == "24h" && Render(Parts(90000)) == "1d60m"
    ensures WEEK == 604800
  {
    OneDigits();
    assert Parts(90061) == [Part(1, 'd'), Part(1, 'h'), Part(1, 'm'), Part(1, 's')];
    assert Parts(86400) == [Part(24, 'h')];
    assert Parts(90000) == [Part(1, 'd'), Part(60, 'm')];
    hide PrintNat, Parts;
    var ps := [Part(1, 'd'), Part(1, 'h'), Part(1, 'm'), Part(1, 's')];
    assert ps[1..] == [Part(1, 'h'), Part(1, 'm'), Part(1, 's')];
    assert ps[1..][1..] == [Part(1, 'm'), Part(1, 's')] && ps[1..][1..][1..] == [Part(1, 's')];
    assert ps[1..][1..][1..][1..] == [] && Render([]) == "";
    assert Render([Part(1, 's')]) == "1s" && Render([Part(1, 'm'), Part(1, 's')]) == "1m1s";
    assert [Part(24, 'h')][1..] == [] && [Part(1, 'd'), Part(60, 'm')][1..] == [Part(60, 'm')] && [Part(60, 'm')][1..] == [];
    assert Render([Part(60, 'm')]) == "60m";
  }

  lemma OneDigits()
    ensures PrintNat(1) == "1" && PrintNat(24) == "24" && PrintNat(60) == "60"
  {
    assert PrintNat(2) == "2" && PrintNat(6) == "6";
  }
}
