/** Login lockout: a failure counter and a lock deadline, and the rate bound they enforce. */
module Lockout {
  import opened Wrappers

  type Time = int

  /** `MAX_CHANCE`, and the lock length in clock ticks. */
  datatype Settings = Settings(maxChance: nat, lockLength: nat) {
    predicate Valid() {
      maxChance >= 1 && lockLength >= 1
    }
  }

  datatype State = State(failChances: nat, effectiveTime: Time)

  /** One `_login` call: the clock at the lock test, the clock at the outcome, and the password check. */
  datatype Attempt = Attempt(checked: Time, finished: Time, passwordOk: bool)

  datatype Outcome = Locked | LoggedIn | Failed

  function Verdict(u: State, a: Attempt): Outcome {
    if a.checked < u.effectiveTime then Locked else if a.passwordOk then LoggedIn else Failed
  }

  function Step(s: Settings, u: State, a: Attempt): State {
    match Verdict(u, a)
    case Locked => u
    case LoggedIn => u.(failChances := 0)
    case Failed =>
      if u.failChances + 1 >= s.maxChance then State(0, a.finished + s.lockLength)
      else u.(failChances := u.failChances + 1)
  }

  // ----- The user record -----

  class User {
    var failChances: nat
    var effectiveTime: Time
    var lastLogin: Time
    const settings: Settings

    constructor (settings: Settings, now: Time)
      ensures this.settings == settings && View() == State(0, now)
    {
      this.settings := settings;
      failChances := 0;
      effectiveTime := now;
      lastLogin := now;
    }

    function View(): State
      reads this
    {
      State(failChances, effectiveTime)
    }

    method LoginSuccess(now: Time)
      modifies this
      ensures View() == old(View()).(failChances := 0) && lastLogin == now
    {
      lastLogin := now;
      failChances := 0;
    }

    method LoginFail(now: Time)
      modifies this
      ensures View() == (if old(failChances) + 1 >= settings.maxChance then State(0, now + settings.lockLength)
                         else State(old(failChances) + 1, old(effectiveTime)))
      ensures lastLogin == old(lastLogin)
    {
      failChances := failChances + 1;
      if failChances >= settings.maxChance {
        failChances := 0;
        effectiveTime := now + settings.lockLength;
      }
    }

    predicate IsActivate(now: Time)
      reads this
    {
      now >= effectiveTime
    }

    function RemainTime(now: Time): (r: nat)
      reads this
      ensures r == 0 <==> IsActivate(now)
      ensures IsActivate(now + r)
    {
      if now >= effectiveTime then 0 else effectiveTime - now
    }

    /** One chance is left exactly if the next failure locks. */
    function RemainChances(): (r: int)
      reads this
      ensures settings.Valid() && failChances < settings.maxChance ==>
                r >= 1 && (r == 1 <==> Step(settings, View(), Attempt(effectiveTime, effectiveTime, false)).effectiveTime
                                       != effectiveTime)
    {
      settings.maxChance - failChances
    }

    method Login(a: Attempt) returns (outcome: Outcome)
      modifies this
      ensures outcome == Verdict(old(View()), a)
      ensures View() == Step(settings, old(View()), a)
      ensures lastLogin == if outcome == LoggedIn then a.finished else old(lastLogin)
    {
      if !IsActivate(a.checked) {
        return Locked;
      }
      if a.passwordOk {
        LoginSuccess(a.finished);
        return LoggedIn;
      } else {
        LoginFail(a.finished);
        return Failed;
      }
    }
  }

  // ----- Runs -----

  /** Attempts come one after another, on a clock that never runs backwards. */
  predicate Ordered(run: seq<Attempt>) {
    && (forall i :: 0 <= i < |run| ==> run[i].checked <= run[i].finished)
    && (forall i, j :: 0 <= i < j < |run| ==> run[i].finished <= run[j].checked)
  }

  function After(s: Settings, u: State, run: seq<Attempt>): State
    decreases |run|
  {
    if run == [] then u else After(s, Step(s, u, run[0]), run[1..])
  }

  /** The failed authentications of a run whose time lies in the closed window from `lo` to `hi`. */
  function Failures(s: Settings, u: State, run: seq<Attempt>, lo: Time, hi: Time): nat
    decreases |run|
  {
    if run == [] then 0
    else
      (if Verdict(u, run[0]) == Failed && lo <= run[0].finished <= hi then 1 else 0)
      + Failures(s, Step(s, u, run[0]), run[1..], lo, hi)
  }

  /** No successful login finishes inside the window. */
  predicate NoSuccess(s: Settings, u: State, run: seq<Attempt>, lo: Time, hi: Time)
    decreases |run|
  {
    run == [] || (!(Verdict(u, run[0]) == LoggedIn && lo <= run[0].finished <= hi)
                  && NoSuccess(s, Step(s, u, run[0]), run[1..], lo, hi))
  }

  /** In every run the counter stays below the limit, so at least one chance is always shown. */
  lemma {:induction false} CounterBelowLimit(s: Settings, u: State, run: seq<Attempt>)
    requires s.Valid() && u.failChances < s.maxChance
    ensures After(s, u, run).failChances < s.maxChance
    decreases |run|
  {
    if run != [] {
      CounterBelowLimit(s, Step(s, u, run[0]), run[1..]);
    }
  }

  /** How many failures still fit before `hi`, starting at `now` with the counter at `c`. */
  function Room(s: Settings, c: nat, now: Time, hi: Time): int
    requires s.Valid()
  {
    if now > hi then 0 else s.maxChance * ((hi - now) / s.lockLength + 1) - c
  }

  lemma RoomShrinks(s: Settings, c: nat, now: Time, later: Time, hi: Time)
    requires s.Valid() && c < s.maxChance && now <= later
    ensures 0 <= Room(s, c, later, hi) <= Room(s, c, now, hi)
  {
    if now <= hi {
      QuotientGrows(hi - Max(now, later), hi - now, s.lockLength);
      var a := if later <= hi then (hi - later) / s.lockLength else 0;
      var b := (hi - now) / s.lockLength;
      MulGrows(s.maxChance, a + 1, b + 1);
      MulGrows(s.maxChance, 1, a + 1);
    }
  }

  lemma MulGrows(m: nat, a: int, b: int)
    requires a <= b
    ensures m * a <= m * b
  {
  }

  lemma QuotientGrows(a: int, b: int, d: int)
    requires d >= 1 && a <= b
    ensures a / d <= b / d
  {
    var q, r := a / d, b / d;
    assert d * q <= a && b < d * r + d == d * (r + 1);
    if q >= r + 1 {
      MulGrows(d, r + 1, q);
    }
  }

  lemma QuotientStep(a: nat, d: int)
    requires d >= 1 && a >= d
    ensures (a - d) / d == a / d - 1
  {
    var q, p := a / d, (a - d) / d;
    assert d * (p + 1) == d * p + d;
    var k := q - (p + 1);
    assert d * k == d * q - d * (p + 1);
    assert -d < d * k < d;
    SmallMultiple(d, k);
  }

  lemma SmallMultiple(d: int, k: int)
    requires d >= 1 && -d < d * k < d
    ensures k == 0
  {
    if k >= 1 {
      MulGrows(d, 1, k);
    } else if k <= -1 {
      MulGrows(d, k, -1);
    }
  }

  /** A failure uses up one unit of room, also when it starts a lock. */
  lemma FailureUsesRoom(s: Settings, u: State, t: Time, hi: Time)
    requires s.Valid() && u.failChances < s.maxChance && t <= hi
    ensures u.failChances + 1 < s.maxChance ==> 1 + Room(s, u.failChances + 1, t, hi) == Room(s, u.failChances, t, hi)
    ensures u.failChances + 1 == s.maxChance ==> 1 + Room(s, 0, t + s.lockLength, hi) == Room(s, u.failChances, t, hi)
  {
    if t + s.lockLength <= hi {
      hide Failures, Worst, Ordered, NoSuccess;
      QuotientStep(hi - t, s.lockLength);
      var q := (hi - t) / s.lockLength;
      assert s.maxChance * (q + 1) == s.maxChance * q + s.maxChance;
    } else {
      assert (hi - t) / s.lockLength == 0;
    }
  }

  predicate AllFrom(run: seq<Attempt>, t: Time) {
    forall i :: 0 <= i < |run| ==> run[i].finished >= t
  }

  lemma OrderedRest(run: seq<Attempt>)
    requires Ordered(run) && run != []
    ensures Ordered(run[1..]) && AllFrom(run[1..], run[0].finished)
  {
    assert forall i :: 0 <= i < |run| - 1 ==> run[1..][i] == run[i + 1];
  }

  lemma {:induction false} FailuresFitRoom(s: Settings, u: State, run: seq<Attempt>, now: Time, lo: Time, hi: Time)
    requires s.Valid() && u.failChances < s.maxChance && lo <= now
    requires Ordered(run) && AllFrom(run, now) && NoSuccess(s, u, run, lo, hi)
    ensures Failures(s, u, run, lo, hi) <= Room(s, u.failChances, Max(now, u.effectiveTime), hi)
    decreases |run|
  {
    hide Room;
    var start := Max(now, u.effectiveTime);
    RoomShrinks(s, u.failChances, start, start, hi);
    if run != [] {
      var a, rest := run[0], run[1..];
      var f, u' := a.finished, Step(s, u, a);
      OrderedRest(run);
      if Verdict(u, a) == Locked {
        assert AllFrom(rest, now);
        FailuresFitRoom(s, u, rest, now, lo, hi);
      } else {
        FailuresFitRoom(s, u', rest, f, lo, hi);
        RoomShrinks(s, u.failChances, start, f, hi);
        if f > hi {
          NoRoomAfter(s, u'.failChances, Max(f, u'.effectiveTime), hi);
        } else {
          FailureUsesRoom(s, u, f, hi);
        }
      }
    }
  }

  lemma NoRoomAfter(s: Settings, c: nat, now: Time, hi: Time)
    requires s.Valid() && now > hi
    ensures Room(s, c, now, hi) == 0
  {
  }

  /**
   * The rate bound: in any run, a closed window in which nobody logs in holds at most
   * MAX_CHANCE failed authentications per started lock length.
   */
  lemma {:induction false} FailureRateBound(s: Settings, u: State, run: seq<Attempt>, lo: Time, hi: Time)
    requires s.Valid() && u.failChances < s.maxChance && lo <= hi
    requires Ordered(run) && NoSuccess(s, u, run, lo, hi)
    ensures Failures(s, u, run, lo, hi) <= s.maxChance * ((hi - lo) / s.lockLength + 1)
    decreases |run|
  {
    if run == [] || run[0].finished >= lo {
      assert AllFrom(run, lo) by {
        assert forall i :: 0 < i < |run| ==> run[0].finished <= run[i].checked <= run[i].finished;
      }
      FailuresFitRoom(s, u, run, lo, lo, hi);
      RoomShrinks(s, u.failChances, lo, Max(lo, u.effectiveTime), hi);
    } else {
      OrderedRest(run);
      FailureRateBound(s, Step(s, u, run[0]), run[1..], lo, hi);
    }
  }

  // ----- The counter counts the failures since the last login or lock -----

  /** How the j-th attempt of the run ends. */
  function OutcomeAt(s: Settings, u: State, run: seq<Attempt>, j: nat): Outcome
    requires j < |run|
  {
    Verdict(After(s, u, run[..j]), run[j])
  }

  /** The j-th attempt changes the lock deadline. */
  predicate LocksAt(s: Settings, u: State, run: seq<Attempt>, j: nat)
    requires j < |run|
  {
    After(s, u, run[..j + 1]).effectiveTime != After(s, u, run[..j]).effectiveTime
  }

  /** The failed attempts among those from `i` up to `n`. */
  function FailedBetween(s: Settings, u: State, run: seq<Attempt>, i: nat, n: nat): nat
    requires i <= n <= |run|
    decreases n - i
  {
    if i == n then 0
    else FailedBetween(s, u, run, i, n - 1) + if OutcomeAt(s, u, run, n - 1) == Failed then 1 else 0
  }

  /** The attempts from `i` up to `n` hold no login and begin no lock. */
  predicate Unbroken(s: Settings, u: State, run: seq<Attempt>, i: nat, n: nat)
    requires n <= |run|
  {
    forall j :: i <= j < n ==> OutcomeAt(s, u, run, j) != LoggedIn && !LocksAt(s, u, run, j)
  }

  lemma {:induction false} AfterMore(s: Settings, u: State, run: seq<Attempt>, n: nat)
    requires n < |run|
    ensures After(s, u, run[..n + 1]) == Step(s, After(s, u, run[..n]), run[n])
    decreases n
  {
    hide Step;
    assert run[..n + 1][0] == run[0];
    if n == 0 {
      assert run[..0] == [] && run[..1][1..] == [];
      assert After(s, u, []) == u;
    } else {
      assert run[..n + 1][1..] == run[1..][..n] && run[..n][0] == run[0] && run[..n][1..] == run[1..][..n - 1];
      AfterMore(s, Step(s, u, run[0]), run[1..], n - 1);
    }
  }

  /** Counters of a run that begins below the limit stay there, wherever it is cut. */
  lemma {:induction false} BelowLimitAt(s: Settings, u: State, run: seq<Attempt>, n: nat)
    requires s.Valid() && u.failChances < s.maxChance && n <= |run|
    ensures After(s, u, run[..n]).failChances < s.maxChance
  {
    CounterBelowLimit(s, u, run[..n]);
  }

  /**
   * One attempt by its outcome: a rejected one changes nothing, a login gives all chances back, a failure
   * takes one, and the failure that takes the last gives them back and locks for the full length.
   */
  lemma {:induction false} AttemptCounts(s: Settings, u: State, run: seq<Attempt>, j: nat)
    requires s.Valid() && u.failChances < s.maxChance && Ordered(run) && j < |run|
    ensures var (v, w) := (After(s, u, run[..j]), After(s, u, run[..j + 1]));
            && (OutcomeAt(s, u, run, j) == Locked ==> w == v)
            && (OutcomeAt(s, u, run, j) == LoggedIn ==> w.failChances == 0 && !LocksAt(s, u, run, j))
            && (LocksAt(s, u, run, j) <==> OutcomeAt(s, u, run, j) == Failed && v.failChances + 1 == s.maxChance)
            && (LocksAt(s, u, run, j) ==> w.failChances == 0 && w.effectiveTime == run[j].finished + s.lockLength)
            && (OutcomeAt(s, u, run, j) == Failed && !LocksAt(s, u, run, j) ==> w.failChances == v.failChances + 1)
  {
    hide After;
    AfterMore(s, u, run, j);
    BelowLimitAt(s, u, run, j);
    assert run[j].checked <= run[j].finished;
  }

  lemma {:induction false} CounterGrows(s: Settings, u: State, run: seq<Attempt>, i: nat, n: nat)
    requires s.Valid() && u.failChances < s.maxChance && Ordered(run) && i <= n <= |run| && Unbroken(s, u, run, i, n)
    ensures After(s, u, run[..n]).failChances == After(s, u, run[..i]).failChances + FailedBetween(s, u, run, i, n)
    decreases n - i
  {
    hide After, OutcomeAt, LocksAt, Ordered;
    if i < n {
      CounterGrows(s, u, run, i, n - 1);
      AttemptCounts(s, u, run, n - 1);
    }
  }

  /** The attempt after the last login or lock before `n`, or the first one. */
  function LastBreak(s: Settings, u: State, run: seq<Attempt>, n: nat): (i: nat)
    requires n <= |run|
    ensures i <= n && Unbroken(s, u, run, i, n)
    ensures i > 0 ==> OutcomeAt(s, u, run, i - 1) == LoggedIn || LocksAt(s, u, run, i - 1)
  {
    if n == 0 then 0
    else if OutcomeAt(s, u, run, n - 1) == LoggedIn || LocksAt(s, u, run, n - 1) then n
    else LastBreak(s, u, run, n - 1)
  }

  /**
   * At every moment of every run the counter is the number of failures since the last login or lock, with what
   * it was at the start if there was neither; and the next attempt begins a lock exactly if it fails and
   * makes that number MAX_CHANCE.
   */
  lemma {:induction false} CounterCounts(s: Settings, u: State, run: seq<Attempt>, n: nat)
    requires s.Valid() && u.failChances < s.maxChance && Ordered(run) && n <= |run|
    ensures var i := LastBreak(s, u, run, n);
            var counted := (if i == 0 then u.failChances else 0) + FailedBetween(s, u, run, i, n);
            && After(s, u, run[..n]).failChances == counted
            && (n < |run| ==> (LocksAt(s, u, run, n) <==> OutcomeAt(s, u, run, n) == Failed && counted + 1 == s.maxChance))
  {
    hide OutcomeAt, LocksAt, Ordered, FailedBetween, Unbroken;
    var i := LastBreak(s, u, run, n);
    hide LastBreak;
    CounterGrows(s, u, run, i, n);
    if i > 0 {
      AttemptCounts(s, u, run, i - 1);
    } else {
      assert run[..0] == [];
    }
    hide After;
    if n < |run| {
      AttemptCounts(s, u, run, n);
    }
  }

  /** After a login the next MAX_CHANCE - 1 failures do not lock, whatever else is tried in between. */
  lemma {:induction false} LoginGivesChancesBack(s: Settings, u: State, run: seq<Attempt>, i: nat, n: nat)
    requires s.Valid() && u.failChances < s.maxChance && Ordered(run) && i < n <= |run|
    requires OutcomeAt(s, u, run, i) == LoggedIn && FailedBetween(s, u, run, i + 1, n) < s.maxChance
    ensures forall j :: i < j < n ==> !LocksAt(s, u, run, j)
    ensures After(s, u, run[..n]).failChances <= FailedBetween(s, u, run, i + 1, n)
    decreases n
  {
    hide OutcomeAt, LocksAt, Ordered, After;
    if n == i + 1 {
      AttemptCounts(s, u, run, i);
    } else {
      LoginGivesChancesBack(s, u, run, i, n - 1);
      AttemptCounts(s, u, run, n - 1);
    }
  }

  // ----- The bound is attained -----

  function Burst(t: Time, n: nat): seq<Attempt> {
    seq(n, _ => Attempt(t, t, false))
  }

  /** All chances at once, again at the very end of every lock. */
  function Worst(s: Settings, t: Time, hi: Time): seq<Attempt>
    requires s.Valid()
    decreases hi - t
  {
    if t > hi then [] else Burst(t, s.maxChance) + Worst(s, t + s.lockLength, hi)
  }

  lemma {:induction false} BurstFails(s: Settings, u: State, n: nat, t: Time, rest: seq<Attempt>, lo: Time, hi: Time)
    requires s.Valid() && 0 < n && u.failChances + n == s.maxChance && u.effectiveTime <= t && lo <= t <= hi
    ensures Failures(s, u, Burst(t, n) + rest, lo, hi)
         == n + Failures(s, State(0, t + s.lockLength), rest, lo, hi)
    ensures NoSuccess(s, u, Burst(t, n) + rest, lo, hi)
         == NoSuccess(s, State(0, t + s.lockLength), rest, lo, hi)
    decreases n
  {
    var run := Burst(t, n) + rest;
    assert run[1..] == Burst(t, n - 1) + rest;
    if n == 1 {
      assert Burst(t, 0) + rest == rest;
    } else {
      BurstFails(s, Step(s, u, run[0]), n - 1, t, rest, lo, hi);
    }
  }

  lemma {:induction false} WorstOrdered(s: Settings, t: Time, hi: Time)
    requires s.Valid()
    ensures Ordered(Worst(s, t, hi)) && AllFrom(Worst(s, t, hi), t)
    ensures forall i :: 0 <= i < |Worst(s, t, hi)| ==> Worst(s, t, hi)[i].checked >= t
    decreases hi - t
  {
    if t <= hi {
      WorstOrdered(s, t + s.lockLength, hi);
    }
  }

  /** No smaller bound holds: this run meets it exactly, in every window. */
  lemma {:induction false} BoundIsAttained(s: Settings, e: Time, t: Time, lo: Time, hi: Time)
    requires s.Valid() && e <= t && lo <= t <= hi
    ensures Ordered(Worst(s, t, hi)) && NoSuccess(s, State(0, e), Worst(s, t, hi), lo, hi)
    ensures Failures(s, State(0, e), Worst(s, t, hi), lo, hi) == s.maxChance * ((hi - t) / s.lockLength + 1)
    decreases hi - t
  {
    WorstOrdered(s, t, hi);
    var next := t + s.lockLength;
    BurstFails(s, State(0, e), s.maxChance, t, Worst(s, next, hi), lo, hi);
    hide Ordered;
    BurstCount(s.maxChance, hi - t, s.lockLength);
    if next <= hi {
      BoundIsAttained(s, next, next, lo, hi);
      hide Failures, Worst, NoSuccess;
    }
  }

  lemma BurstCount(n: nat, t: nat, length: nat)
    requires length > 0
    ensures t < length ==> n * (t / length + 1) == n
    ensures t >= length ==> n * (t / length + 1) == n + n * ((t - length) / length + 1)
  {
    if t < length {
      assert t / length == 0;
    } else {
      QuotientStep(t, length);
      var q := t / length;
      assert n * (q + 1) == n + n * q;
    }
  }
}
