/** Alignment of two time series on the range they share. */
module Series {
  import opened Wrappers

  datatype Point = Point(time: int, value: real)

  type Points = seq<Point>

  datatype Fault = IndexError

  // ----- What cutting computes -----

  function FirstAt(s: Points, t: int): (i: nat)
    ensures i <= |s| && (i < |s| ==> s[i].time == t)
    ensures forall j :: 0 <= j < i ==> s[j].time != t
  {
    if s == [] || s[0].time == t then 0 else 1 + FirstAt(s[1..], t)
  }

  function LastAt(s: Points, t: int): (i: int)
    ensures -1 <= i < |s| && (i >= 0 ==> s[i].time == t)
    ensures forall j :: i < j < |s| ==> s[j].time != t
  {
    if s == [] then -1 else if s[|s| - 1].time == t then |s| - 1 else LastAt(s[..|s| - 1], t)
  }

  function HeadCut(t: int, s: Points): Result<Points, Fault> {
    if FirstAt(s, t) == |s| then Err(IndexError) else Ok(s[FirstAt(s, t)..])
  }

  function EndCut(t: int, s: Points): Result<Points, Fault> {
    if LastAt(s, t) < 0 then Err(IndexError) else Ok(s[..LastAt(s, t) + 1])
  }

  /** `list[i]` for an index that may count from the end. */
  function At(s: Points, i: int): Option<Point> {
    if 0 <= i < |s| then Some(s[i]) else if -|s| <= i < 0 then Some(s[|s| + i]) else None
  }

  /** `_cut_data`; `fromEnd` is the factor -1. */
  method CutData(t: int, s: Points, fromEnd: bool) returns (r: Result<Points, Fault>)
    ensures r == if fromEnd then EndCut(t, s) else HeadCut(t, s)
  {
    var factor := if fromEnd then -1 else 1;
    var index := if fromEnd then 1 else 0;
    while true
      invariant fromEnd ==> 1 <= index <= |s| + 1 && forall j :: |s| - index < j < |s| ==> s[j].time != t
      invariant !fromEnd ==> 0 <= index <= |s| && forall j :: 0 <= j < index ==> s[j].time != t
      decreases |s| + 1 - index
    {
      var p := At(s, if fromEnd then -index else index);
      if p == None {
        return Err(IndexError);
      }
      if p.value.time == t {
        break;
      }
      index := index + 1;
    }
    if !fromEnd {
      return Ok(s[index..]);
    }
    assert LastAt(s, t) == |s| - index && s[..|s|] == s;
    return Ok(if index == 1 then s else s[..|s| - index + 1]);
  }

  /** Both ends of the range two nonempty series share. */
  function SharedHead(a: Points, b: Points): int
    requires a != [] && b != []
  {
    Max(a[0].time, b[0].time)
  }

  function SharedEnd(a: Points, b: Points): int
    requires a != [] && b != []
  {
    Min(a[|a| - 1].time, b[|b| - 1].time)
  }

  predicate Disjoint(a: Points, b: Points)
    requires a != [] && b != []
  {
    a[0].time > b[|b| - 1].time || a[|a| - 1].time < b[0].time
  }

  function CutBoth(t: int, a: Points, b: Points, fromEnd: bool): Result<(Points, Points), Fault> {
    match if fromEnd then EndCut(t, a) else HeadCut(t, a)
    case Err(e) => Err(e)
    case Ok(a') =>
      match if fromEnd then EndCut(t, b) else HeadCut(t, b)
      case Err(e) => Err(e)
      case Ok(b') => Ok((a', b'))
  }

  /** The aligned pair; nothing when the series do not overlap. */
  function Aligned(a: Points, b: Points, head: bool, end: bool): Result<Option<(Points, Points)>, Fault> {
    if a == [] || b == [] || Disjoint(a, b) then Ok(None)
    else
      match if head then CutBoth(SharedHead(a, b), a, b, false) else Ok((a, b))
      case Err(e) => Err(e)
      case Ok((a', b')) =>
        match if end then CutBoth(SharedEnd(a, b), a', b', true) else Ok((a', b'))
        case Err(e) => Err(e)
        case Ok(r) => Ok(Some(r))
  }

  method AlignData(resultSet1: Points, resultSet2: Points, head: bool, end: bool)
    returns (r: Result<Option<(Points, Points)>, Fault>)
    ensures r == Aligned(resultSet1, resultSet2, head, end)
  {
    hide HeadCut, EndCut;
    if resultSet1 == [] || resultSet2 == [] {
      return Ok(None);
    }
    var result1, result2 := resultSet1, resultSet2;
    var headTime1, headTime2 := result1[0].time, result2[0].time;
    var endTime1, endTime2 := result1[|result1| - 1].time, result2[|result2| - 1].time;
    if headTime1 > endTime2 || endTime1 < headTime2 {
      return Ok(None);
    }
    var headTime := if headTime1 >= headTime2 then headTime1 else headTime2;
    var endTime := if endTime1 <= endTime2 then endTime1 else endTime2;
    if head {
      var cut := CutData(headTime, result1, false);
      if cut.Err? { return Err(cut.error); }
      result1 := cut.value;
      cut := CutData(headTime, result2, false);
      if cut.Err? { return Err(cut.error); }
      result2 := cut.value;
    }
    if end {
      var cut := CutData(endTime, result1, true);
      if cut.Err? { return Err(cut.error); }
      result1 := cut.value;
      cut := CutData(endTime, result2, true);
      if cut.Err? { return Err(cut.error); }
      result2 := cut.value;
    }
    return Ok(Some((result1, result2)));
  }

  // ----- Alignment of increasing series -----

  predicate Increasing(s: Points) {
    forall i, j :: 0 <= i < j < |s| ==> s[i].time < s[j].time
  }

  /** The points with a time from `lo` to `hi`. */
  function Within(s: Points, lo: int, hi: int): Points {
    if s == [] then []
    else (if lo <= s[0].time <= hi then [s[0]] else []) + Within(s[1..], lo, hi)
  }

  predicate Occurs(s: Points, t: int) {
    exists i :: 0 <= i < |s| && s[i].time == t
  }

  lemma {:induction false} WithinConcat(a: Points, b: Points, lo: int, hi: int)
    ensures Within(a + b, lo, hi) == Within(a, lo, hi) + Within(b, lo, hi)
  {
    if a == [] {
      assert a + b == b;
    } else {
      assert (a + b)[1..] == a[1..] + b;
      WithinConcat(a[1..], b, lo, hi);
    }
  }

  lemma {:induction false} WithinAllOrNone(s: Points, lo: int, hi: int)
    ensures (forall i :: 0 <= i < |s| ==> lo <= s[i].time <= hi) ==> Within(s, lo, hi) == s
    ensures (forall i :: 0 <= i < |s| ==> !(lo <= s[i].time <= hi)) ==> Within(s, lo, hi) == []
  {
    if s != [] {
      WithinAllOrNone(s[1..], lo, hi);
    }
  }

  lemma {:induction false} WithinSlice(s: Points, i: nat, j: nat)
    requires Increasing(s) && i <= j < |s|
    ensures Within(s, s[i].time, s[j].time) == s[i..j + 1]
  {
    hide Within;
    var lo, hi := s[i].time, s[j].time;
    var a, b, c := s[..i], s[i..j + 1], s[j + 1..];
    ThreeParts(s, i, j + 1);
    WithinConcat(a + b, c, lo, hi);
    WithinConcat(a, b, lo, hi);
    forall k | 0 <= k < |a|
      ensures !(lo <= a[k].time <= hi)
    {
      assert a[k] == s[k] && s[k].time < s[i].time;
    }
    forall k | 0 <= k < |c|
      ensures !(lo <= c[k].time <= hi)
    {
      assert c[k] == s[j + 1 + k] && s[j].time < s[j + 1 + k].time;
    }
    forall k | 0 <= k < |b|
      ensures lo <= b[k].time <= hi
    {
      assert b[k] == s[i + k] && (k == 0 || s[i].time < s[i + k].time) && (i + k == j || s[i + k].time < s[j].time);
    }
    WithinAllOrNone(a, lo, hi);
    WithinAllOrNone(b, lo, hi);
    WithinAllOrNone(c, lo, hi);
  }

  lemma ThreeParts(s: Points, i: nat, j: nat)
    requires i <= j <= |s|
    ensures s == s[..i] + s[i..j] + s[j..]
  {
  }

  lemma HeadCutAt(s: Points, i: nat)
    requires Increasing(s) && i < |s|
    ensures HeadCut(s[i].time, s) == Ok(s[i..])
  {
    var k := FirstAt(s, s[i].time);
    assert k <= i;
    assert k == i;
  }

  lemma EndCutAt(s: Points, i: nat, j: nat)
    requires Increasing(s) && i <= j < |s|
    ensures EndCut(s[j].time, s[i..]) == Ok(s[i..j + 1])
  {
    var t := s[i..];
    var k := LastAt(t, s[j].time);
    assert t[j - i] == s[j] && k >= j - i;
    assert k == j - i by {
      assert s[i + k] == t[k];
    }
    assert t[..k + 1] == s[i..j + 1];
  }

  lemma CutFails(s: Points, i: nat, t: int)
    requires i <= |s| && forall k :: i <= k < |s| ==> s[k].time != t
    ensures HeadCut(t, s[i..]) == Err(IndexError) && EndCut(t, s[i..]) == Err(IndexError)
  {
    assert forall k :: 0 <= k < |s| - i ==> s[i..][k] == s[i + k];
  }

  /** Cutting one increasing series at both ends: possible exactly when both times occur in it. */
  lemma {:induction false} CutsOne(s: Points, lo: int, hi: int)
    requires Increasing(s) && lo <= hi
    ensures HeadCut(lo, s).Ok? <==> Occurs(s, lo)
    ensures Occurs(s, lo) ==> (EndCut(hi, HeadCut(lo, s).value).Ok? <==> Occurs(s, hi))
    ensures Occurs(s, lo) && Occurs(s, hi) ==>
              EndCut(hi, HeadCut(lo, s).value) == Ok(Within(s, lo, hi))
  {
    hide HeadCut, EndCut, Within;
    if Occurs(s, lo) {
      var i :| 0 <= i < |s| && s[i].time == lo;
      HeadCutAt(s, i);
      if Occurs(s, hi) {
        var j :| 0 <= j < |s| && s[j].time == hi;
        assert i <= j;
        EndCutAt(s, i, j);
        WithinSlice(s, i, j);
      } else {
        CutFails(s, i, hi);
      }
    } else {
      CutFails(s, 0, lo);
      assert s[0..] == s;
    }
  }

  /** The times to which a series is cut: the shared ones at the ends asked for, its own at the others. */
  function Low(s: Points, a: Points, b: Points, head: bool): int
    requires s != [] && a != [] && b != []
  {
    if head then SharedHead(a, b) else s[0].time
  }

  function High(s: Points, a: Points, b: Points, end: bool): int
    requires s != [] && a != [] && b != []
  {
    if end then SharedEnd(a, b) else s[|s| - 1].time
  }

  /** An end that is not cut is as good as cut at the series' own time there. */
  lemma OwnEnds(s: Points, lo: int)
    requires s != [] && Increasing(s)
    ensures HeadCut(s[0].time, s) == Ok(s)
    ensures HeadCut(lo, s).Ok? ==>
              EndCut(s[|s| - 1].time, HeadCut(lo, s).value) == HeadCut(lo, s)
  {
    if HeadCut(lo, s).Ok? {
      var cut := HeadCut(lo, s).value;
      assert cut[|cut| - 1] == s[|s| - 1];
      assert cut[..|cut|] == cut;
    }
  }

  lemma OwnOccur(s: Points)
    requires s != []
    ensures Occurs(s, s[0].time) && Occurs(s, s[|s| - 1].time)
  {
  }

  /**
   * Two increasing, overlapping series are aligned exactly when the shared times at which they are to be cut
   * are times of both, and then each is reduced to its points within its range.
   */
  lemma {:induction false} AlignmentExact(a: Points, b: Points, head: bool, end: bool)
    requires a != [] && b != [] && Increasing(a) && Increasing(b) && !Disjoint(a, b)
    ensures var r := Aligned(a, b, head, end);
            && (r.Ok? <==> && (head ==> Occurs(a, SharedHead(a, b)) && Occurs(b, SharedHead(a, b)))
                           && (end ==> Occurs(a, SharedEnd(a, b)) && Occurs(b, SharedEnd(a, b))))
            && (r.Ok? ==> r.value == Some((Within(a, Low(a, a, b, head), High(a, a, b, end)),
                                           Within(b, Low(b, a, b, head), High(b, a, b, end)))))
  {
    hide HeadCut, EndCut, Occurs, Within;
    assert a[0].time <= a[|a| - 1].time && b[0].time <= b[|b| - 1].time;
    CutsOne(a, Low(a, a, b, head), High(a, a, b, end));
    CutsOne(b, Low(b, a, b, head), High(b, a, b, end));
    OwnEnds(a, Low(a, a, b, head));
    OwnEnds(b, Low(b, a, b, head));
    OwnOccur(a);
    OwnOccur(b);
    hide Increasing;
  }

  lemma DisjointGivesNothing(a: Points, b: Points, head: bool, end: bool)
    requires a != [] && b != [] && Disjoint(a, b)
    ensures Aligned(a, b, head, end) == Ok(None)
  {
    hide HeadCut, EndCut;
  }

  // ----- Windows of one timeline -----

  function Times(s: Points): seq<int> {
    seq(|s|, i requires 0 <= i < |s| => s[i].time)
  }

  predicate IncreasingTimes(timeline: seq<int>) {
    forall i, j :: 0 <= i < j < |timeline| ==> timeline[i] < timeline[j]
  }

  /** `s` holds one point for each time of the timeline from index `i` up to `j`. */
  predicate IsWindow(s: Points, timeline: seq<int>, i: nat, j: nat) {
    i < j <= |timeline| && Times(s) == timeline[i..j]
  }

  lemma WindowTimes(s: Points, timeline: seq<int>, i: nat, j: nat)
    requires IncreasingTimes(timeline) && IsWindow(s, timeline, i, j)
    ensures |s| == j - i && Increasing(s) && forall k :: 0 <= k < |s| ==> s[k].time == timeline[i + k]
  {
    assert |s| == |Times(s)| == j - i;
    forall k | 0 <= k < |s|
      ensures s[k].time == timeline[i + k]
    {
      assert Times(s)[k] == timeline[i..j][k];
    }
  }

  /** The part of a window inside a smaller index range, as points and as times. */
  lemma {:induction false} WindowPart(s: Points, timeline: seq<int>, i: nat, j: nat, lo: nat, hi: nat)
    requires IncreasingTimes(timeline) && IsWindow(s, timeline, i, j) && i <= lo < hi <= j
    ensures Occurs(s, timeline[lo]) && Occurs(s, timeline[hi - 1])
    ensures |s| == j - i && Within(s, timeline[lo], timeline[hi - 1]) == s[lo - i..hi - i]
    ensures Times(s[lo - i..hi - i]) == timeline[lo..hi]
  {
    WindowTimes(s, timeline, i, j);
    assert s[lo - i].time == timeline[lo] && s[hi - 1 - i].time == timeline[hi - 1];
    WithinSlice(s, lo - i, hi - 1 - i);
  }

  lemma WindowsMeet(a: Points, b: Points, timeline: seq<int>, i: nat, j: nat, k: nat, l: nat)
    requires IncreasingTimes(timeline) && IsWindow(a, timeline, i, j) && IsWindow(b, timeline, k, l)
    ensures a != [] && b != [] && Increasing(a) && Increasing(b)
    ensures Disjoint(a, b) <==> Max(i, k) >= Min(j, l)
    ensures Max(i, k) < Min(j, l) ==>
              SharedHead(a, b) == timeline[Max(i, k)] && SharedEnd(a, b) == timeline[Min(j, l) - 1]
  {
    WindowEnds(a, timeline, i, j);
    WindowEnds(b, timeline, k, l);
    hide IsWindow, IncreasingTimes, Increasing;
    InOrder(timeline, i, k);
    InOrder(timeline, l - 1, j - 1);
    InOrder(timeline, i, l - 1);
    InOrder(timeline, k, j - 1);
  }

  lemma WindowEnds(s: Points, timeline: seq<int>, i: nat, j: nat)
    requires IncreasingTimes(timeline) && IsWindow(s, timeline, i, j)
    ensures i < j <= |timeline| && s != [] && Increasing(s)
    ensures s[0].time == timeline[i] && s[|s| - 1].time == timeline[j - 1]
  {
    WindowTimes(s, timeline, i, j);
  }

  lemma InOrder(timeline: seq<int>, x: nat, y: nat)
    requires IncreasingTimes(timeline) && x < |timeline| && y < |timeline|
    ensures x <= y <==> timeline[x] <= timeline[y]
  {
  }

  /** Disjoint windows of one timeline give no data. */
  lemma WindowsApart(a: Points, b: Points, timeline: seq<int>, i: nat, j: nat, k: nat, l: nat,
                                        head: bool, end: bool)
    requires IncreasingTimes(timeline) && IsWindow(a, timeline, i, j) && IsWindow(b, timeline, k, l)
    requires Max(i, k) >= Min(j, l)
    ensures Aligned(a, b, head, end) == Ok(None)
  {
    WindowsMeet(a, b, timeline, i, j, k, l);
    hide Aligned, Disjoint, IsWindow, Increasing;
    DisjointGivesNothing(a, b, head, end);
  }

  /**
   * Overlapping windows of one timeline are cut to contiguous parts with identical times, the times
   * both cover, and the cutting never runs out of range.
   */
  lemma WindowsAligned(
      a: Points, b: Points, timeline: seq<int>, i: nat, j: nat, k: nat, l: nat, lo: nat, hi: nat)
    requires IncreasingTimes(timeline) && IsWindow(a, timeline, i, j) && IsWindow(b, timeline, k, l)
    requires lo == Max(i, k) < hi == Min(j, l)
    ensures |a| == j - i && |b| == l - k
    ensures Aligned(a, b, true, true) == Ok(Some((a[lo - i..hi - i], b[lo - k..hi - k])))
    ensures Times(a[lo - i..hi - i]) == timeline[lo..hi] == Times(b[lo - k..hi - k])
  {
    hide Aligned, Within, Occurs, Times, SharedHead, SharedEnd, Disjoint, Increasing, IsWindow, IncreasingTimes;
    WindowsMeet(a, b, timeline, i, j, k, l);
    WindowPart(a, timeline, i, j, lo, hi);
    WindowPart(b, timeline, k, l, lo, hi);
    AlignmentExact(a, b, true, true);
  }

  /** An empty series gives no data. */
  lemma EmptyGivesNothing(a: Points, b: Points, head: bool, end: bool)
    requires a == [] || b == []
    ensures Aligned(a, b, head, end) == Ok(None)
  {
    hide HeadCut, EndCut;
  }
}
