/** Login attempts that overlap: each reads the user record, and writes all of it back when it ends. */
module LockoutOverlap {
  import opened Wrappers
  import opened Lockout

  /** A worker of the web server: without an attempt, or with the record its attempt has read. */
  datatype Worker = Idle | Busy(read: State)

  datatype Server = Server(stored: State, workers: seq<Worker>)

  /** An attempt begins or ends, or an administrator locks the account until a time, unlocking if it is past. */
  datatype Move = Begin(worker: nat) | End(worker: nat, passwordOk: bool) | Admin(until: Time)

  datatype Timed = Timed(now: Time, move: Move)

  /** Reading the record and testing the lock is one step; storing the outcome is another. */
  function Act(s: Settings, v: Server, t: Timed): (r: Server)
    ensures |r.workers| == |v.workers|
  {
    match t.move
    case Begin(i) =>
      if i < |v.workers| && v.workers[i].Idle? && v.stored.effectiveTime <= t.now then
        v.(workers := v.workers[i := Busy(v.stored)])
      else v
    case End(i, ok) =>
      if i < |v.workers| && v.workers[i].Busy? then
        var u := v.workers[i].read;
        Server(Step(s, u, Attempt(u.effectiveTime, t.now, ok)), v.workers[i := Idle])
      else v
    case Admin(until) => v.(stored := State(0, until))
  }

  /** An attempt ends with the given outcome of its password check. */
  predicate Ends(v: Server, t: Timed, ok: bool) {
    t.move.End? && t.move.worker < |v.workers| && v.workers[t.move.worker].Busy? && t.move.passwordOk == ok
  }

  predicate Sorted(run: seq<Timed>) {
    forall i, j :: 0 <= i < j < |run| ==> run[i].now <= run[j].now
  }

  predicate From(run: seq<Timed>, now: Time) {
    forall i :: 0 <= i < |run| ==> run[i].now >= now
  }

  function AfterAll(s: Settings, v: Server, run: seq<Timed>): (r: Server)
    ensures |r.workers| == |v.workers|
    decreases |run|
  {
    if run == [] then v else AfterAll(s, Act(s, v, run[0]), run[1..])
  }

  /** The failed authentications whose end lies in the closed window from `lo` to `hi`. */
  function FailuresIn(s: Settings, v: Server, run: seq<Timed>, lo: Time, hi: Time): nat
    decreases |run|
  {
    if run == [] then 0
    else (if Ends(v, run[0], false) && lo <= run[0].now <= hi then 1 else 0)
         + FailuresIn(s, Act(s, v, run[0]), run[1..], lo, hi)
  }

  predicate NoLogin(s: Settings, v: Server, run: seq<Timed>, lo: Time, hi: Time)
    decreases |run|
  {
    run == [] || (!(Ends(v, run[0], true) && lo <= run[0].now <= hi)
                  && NoLogin(s, Act(s, v, run[0]), run[1..], lo, hi))
  }

  /** The locks and unlocks by administrators in the window. */
  function Admins(run: seq<Timed>, lo: Time, hi: Time): nat {
    if run == [] then 0
    else (if run[0].move.Admin? && lo <= run[0].now <= hi then 1 else 0) + Admins(run[1..], lo, hi)
  }

  /** How many attempts are under way. */
  function Busies(ws: seq<Worker>): (n: nat)
    ensures n <= |ws|
  {
    if ws == [] then 0 else (if ws[0].Busy? then 1 else 0) + Busies(ws[1..])
  }

  /** Never more than `k` attempts are under way at once. */
  predicate AtMost(s: Settings, v: Server, run: seq<Timed>, k: nat)
    decreases |run|
  {
    Busies(v.workers) <= k && (run == [] || AtMost(s, Act(s, v, run[0]), run[1..], k))
  }

  /** Counters below the limit, and no attempt on a record that was locked when read. */
  predicate Sound(s: Settings, v: Server, now: Time) {
    && s.Valid() && v.stored.failChances < s.maxChance
    && forall i :: 0 <= i < |v.workers| && v.workers[i].Busy? ==>
         v.workers[i].read.failChances < s.maxChance && v.workers[i].read.effectiveTime <= now
  }

  lemma SoundLater(s: Settings, v: Server, now: Time, t: Timed)
    requires Sound(s, v, now) && now <= t.now
    ensures Sound(s, Act(s, v, t), t.now)
  {
  }

  // ----- How many failures one lock can cost -----

  /** The multisets of `n` elements out of `m` kinds. */
  function Ways(m: nat, n: nat): nat
    decreases m + n
  {
    if n == 0 then 1 else if m == 0 then 0 else Ways(m - 1, n) + Ways(m, n - 1)
  }

  /** The failures that `k` attempts at once, with `n` chances, can reach before everything is locked. */
  function MaxFailures(k: nat, n: nat): nat {
    if n == 0 then 0 else MaxFailures(k, n - 1) + Ways(k, n)
  }

  function Choose(n: nat, r: nat): nat {
    if r == 0 then 1 else if n == 0 then 0 else Choose(n - 1, r) + Choose(n - 1, r - 1)
  }

  lemma {:induction false} WaysSum(m: nat, n: nat)
    ensures 1 + MaxFailures(m, n) == Ways(m + 1, n)
  {
    if n > 0 {
      WaysSum(m, n - 1);
    }
  }

  lemma {:induction false} ChooseNone(n: nat, r: nat)
    requires n < r
    ensures Choose(n, r) == 0
  {
    if n > 0 {
      ChooseNone(n - 1, r);
      ChooseNone(n - 1, r - 1);
    }
  }

  lemma {:induction false} WaysAreChoices(m: nat, n: nat)
    ensures Ways(m + 1, n) == Choose(m + n, n)
    decreases m + n
  {
    if n > 0 {
      WaysAreChoices(m, n - 1);
      if m > 0 {
        WaysAreChoices(m - 1, n);
      } else {
        assert Ways(0, n) == 0;
        ChooseNone(n - 1, n);
      }
    }
  }

  /** The factor in closed form, and for one attempt at a time. */
  lemma {:induction false} MaxFailuresIs(k: nat, n: nat)
    ensures MaxFailures(k, n) == Choose(k + n, n) - 1
    ensures MaxFailures(1, n) == n && MaxFailures(0, n) == 0
    ensures k >= 2 && n >= 1 ==> MaxFailures(k, n) > n
  {
    WaysSum(k, n);
    WaysAreChoices(k, n);
    NoneAndOne(n);
    if k >= 2 && n >= 1 {
      TwoPassOne(k, n);
    }
  }

  lemma {:induction false} NoneAndOne(n: nat)
    ensures MaxFailures(0, n) == 0 && MaxFailures(1, n) == n && Ways(1, n) == 1
  {
    if n > 0 {
      NoneAndOne(n - 1);
    }
  }

  lemma {:induction false} TwoPassOne(k: nat, n: nat)
    requires k >= 2 && n >= 1
    ensures MaxFailures(k, n) > n
  {
    WaysGrows(1, k, n);
    NoneAndOne(n);
    if n > 1 {
      TwoPassOne(k, n - 1);
    } else {
      OneEach(k);
    }
  }

  lemma {:induction false} OneEach(k: nat)
    ensures Ways(k, 1) == k && MaxFailures(k, 0) == 0
  {
    if k > 0 {
      OneEach(k - 1);
    }
  }

  lemma {:induction false} WaysGrows(m: nat, m': nat, n: nat)
    requires m <= m'
    ensures Ways(m, n) <= Ways(m', n)
    decreases m' - m
  {
    if m < m' {
      WaysGrows(m, m' - 1, n);
    }
  }

  // ----- How many failures a state can still produce -----

  /** Chances left before the next lock; none while locked. */
  function Chances(s: Settings, u: State, now: Time): nat {
    if now < u.effectiveTime || u.failChances >= s.maxChance then 0 else s.maxChance - u.failChances
  }

  function One(s: Settings, w: Worker, now: Time, n: nat): nat {
    if w.Busy? && Chances(s, w.read, now) < n then 1 else 0
  }

  /** The attempts under way with fewer than `n` chances. */
  function BusyBelow(s: Settings, ws: seq<Worker>, now: Time, n: nat): (r: nat)
    ensures r <= Busies(ws)
  {
    if ws == [] then 0 else One(s, ws[0], now, n) + BusyBelow(s, ws[1..], now, n)
  }

  /** Of `k` attempts at once, those with fewer than `n` chances; one not begun could read what is stored. */
  function Below(s: Settings, k: nat, v: Server, now: Time, n: nat): (r: nat)
    requires Busies(v.workers) <= k
    ensures r <= k
  {
    BusyBelow(s, v.workers, now, n) + if Chances(s, v.stored, now) < n then k - Busies(v.workers) else 0
  }

  /** What has been used up of `MaxFailures`. */
  function Used(s: Settings, k: nat, v: Server, now: Time, n: nat): nat
    requires Busies(v.workers) <= k
  {
    if n == 0 then 0 else Used(s, k, v, now, n - 1) + Ways(Below(s, k, v, now, n), n)
  }

  lemma {:induction false} BusyBelowGrows(s: Settings, ws: seq<Worker>, now: Time, m: nat, n: nat)
    requires m <= n
    ensures BusyBelow(s, ws, now, m) <= BusyBelow(s, ws, now, n)
  {
    if ws != [] {
      BusyBelowGrows(s, ws[1..], now, m, n);
    }
  }

  lemma BelowGrows(s: Settings, k: nat, v: Server, now: Time, m: nat, n: nat)
    requires Busies(v.workers) <= k && m <= n
    ensures Below(s, k, v, now, m) <= Below(s, k, v, now, n)
  {
    BusyBelowGrows(s, v.workers, now, m, n);
  }

  lemma {:induction false} WorkerChanges(s: Settings, ws: seq<Worker>, i: nat, w: Worker, now: Time, n: nat)
    requires i < |ws|
    ensures BusyBelow(s, ws[i := w], now, n) + One(s, ws[i], now, n) == BusyBelow(s, ws, now, n) + One(s, w, now, n)
    ensures Busies(ws[i := w]) + (if ws[i].Busy? then 1 else 0) == Busies(ws) + if w.Busy? then 1 else 0
  {
    hide One;
    if i > 0 {
      assert ws[i := w][1..] == ws[1..][i - 1 := w];
      WorkerChanges(s, ws[1..], i - 1, w, now, n);
    } else {
      assert ws[i := w][1..] == ws[1..];
    }
  }

  /** With at most `m` workers below every level up to `n`, no more is used up than `m` could. */
  lemma {:induction false} UsedAtMost(s: Settings, k: nat, v: Server, now: Time, n: nat, m: nat)
    requires Busies(v.workers) <= k && Below(s, k, v, now, n) <= m
    ensures Used(s, k, v, now, n) <= MaxFailures(m, n)
  {
    hide Below;
    if n > 0 {
      BelowGrows(s, k, v, now, n - 1, n);
      UsedAtMost(s, k, v, now, n - 1, m);
      WaysGrows(Below(s, k, v, now, n), m, n);
    }
  }

  /**
   * If below some level `b` there is one more than before, and at no higher level fewer, then more is used
   * up, whatever has happened at the lower levels.
   */
  lemma {:induction false} UsedGrows(s: Settings, k: nat, v: Server, v': Server, now: Time, b: nat, n: nat)
    requires Busies(v.workers) <= k && Busies(v'.workers) <= k && 1 <= b <= n
    requires Below(s, k, v', now, b) >= Below(s, k, v, now, b) + 1
    requires forall i: nat :: b < i <= n ==> Below(s, k, v', now, i) >= Below(s, k, v, now, i)
    ensures Used(s, k, v', now, n) >= Used(s, k, v, now, n) + 1
    decreases n
  {
    hide Below;
    if n == b {
      var d := Below(s, k, v, now, b);
      BelowGrows(s, k, v, now, b - 1, b);
      UsedAtMost(s, k, v, now, b - 1, d);
      WaysSum(d, b - 1);
      assert Ways(d + 1, b) == Ways(d, b) + Ways(d + 1, b - 1);
      WaysGrows(d + 1, Below(s, k, v', now, b), b);
    } else {
      UsedGrows(s, k, v, v', now, b, n - 1);
      WaysGrows(Below(s, k, v, now, n), Below(s, k, v', now, n), n);
    }
  }

  lemma {:induction false} UsedSame(s: Settings, k: nat, v: Server, v': Server, now: Time, later: Time, n: nat)
    requires Busies(v.workers) <= k && Busies(v'.workers) <= k
    requires forall i: nat :: i <= n ==> Below(s, k, v', later, i) == Below(s, k, v, now, i)
    ensures Used(s, k, v', later, n) == Used(s, k, v, now, n)
  {
    hide Below;
    if n > 0 {
      UsedSame(s, k, v, v', now, later, n - 1);
    }
  }

  lemma {:induction false} BusyWait(s: Settings, ws: seq<Worker>, now: Time, later: Time, n: nat)
    requires now <= later && forall i :: 0 <= i < |ws| && ws[i].Busy? ==> ws[i].read.effectiveTime <= now
    ensures BusyBelow(s, ws, later, n) == BusyBelow(s, ws, now, n)
  {
    if ws != [] {
      BusyWait(s, ws[1..], now, later, n);
    }
  }

  /** The failures still possible before everything is locked. */
  function Rest(s: Settings, k: nat, v: Server, now: Time): int
    requires Busies(v.workers) <= k
  {
    MaxFailures(k, s.maxChance) - Used(s, k, v, now, s.maxChance)
  }

  lemma {:induction false} RestBounds(s: Settings, k: nat, v: Server, now: Time)
    requires Busies(v.workers) <= k
    ensures 0 <= Rest(s, k, v, now) <= MaxFailures(k, s.maxChance)
  {
    UsedAtMost(s, k, v, now, s.maxChance, k);
  }

  lemma RestWaits(s: Settings, k: nat, v: Server, now: Time, later: Time)
    requires Sound(s, v, now) && now <= later && Busies(v.workers) <= k
    requires now < v.stored.effectiveTime ==> later < v.stored.effectiveTime
    ensures Rest(s, k, v, later) == Rest(s, k, v, now)
  {
    forall n: nat
      ensures Below(s, k, v, later, n) == Below(s, k, v, now, n)
    {
      BusyWait(s, v.workers, now, later, n);
    }
    UsedSame(s, k, v, v, now, later, s.maxChance);
  }

  lemma RestAfterFailure(s: Settings, k: nat, v: Server, t: Timed)
    requires Sound(s, v, t.now) && Ends(v, t, false) && Busies(v.workers) <= k
    ensures Busies(Act(s, v, t).workers) <= k && 1 + Rest(s, k, Act(s, v, t), t.now) <= Rest(s, k, v, t.now)
  {
    var i, v' := t.move.worker, Act(s, v, t);
    var b := Chances(s, v.workers[i].read, t.now);
    assert 1 <= b <= s.maxChance && Chances(s, v'.stored, t.now) == b - 1;
    WorkerChanges(s, v.workers, i, Idle, t.now, 0);
    forall n: nat | b <= n
      ensures Below(s, k, v', t.now, n) >= Below(s, k, v, t.now, n) + if n == b then 1 else 0
    {
      WorkerChanges(s, v.workers, i, Idle, t.now, n);
    }
    hide Below, Act;
    UsedGrows(s, k, v, v', t.now, b, s.maxChance);
  }

  lemma RestAfterBegin(s: Settings, k: nat, v: Server, t: Timed)
    requires Sound(s, v, t.now) && t.move.Begin? && Busies(v.workers) <= k && Busies(Act(s, v, t).workers) <= k
    ensures Rest(s, k, Act(s, v, t), t.now) == Rest(s, k, v, t.now)
  {
    var v' := Act(s, v, t);
    forall n: nat
      ensures Below(s, k, v', t.now, n) == Below(s, k, v, t.now, n)
    {
      if v' != v {
        WorkerChanges(s, v.workers, t.move.worker, Busy(v.stored), t.now, n);
      }
    }
    UsedSame(s, k, v, v', t.now, t.now, s.maxChance);
  }

  // ----- A bound on the failures of a window -----

  function Windows(s: Settings, now: Time, hi: Time): int
    requires s.Valid()
  {
    (hi - now) / s.lockLength
  }

  /** What the failures from now on can cost if there is one before a lock that holds now runs out. */
  function Now(s: Settings, k: nat, v: Server, now: Time, hi: Time): int
    requires s.Valid() && Busies(v.workers) <= k
  {
    Rest(s, k, v, now) + MaxFailures(k, s.maxChance) * Windows(s, now, hi)
  }

  /** What they can cost if the lock runs out first. */
  function Later(s: Settings, k: nat, v: Server, hi: Time): int
    requires s.Valid()
  {
    if v.stored.effectiveTime > hi then 0
    else MaxFailures(k, s.maxChance) * (1 + Windows(s, v.stored.effectiveTime, hi))
  }

  function Budget(s: Settings, k: nat, v: Server, now: Time, hi: Time): int
    requires s.Valid() && Busies(v.workers) <= k
  {
    if now < v.stored.effectiveTime then Max(Now(s, k, v, now, hi), Later(s, k, v, hi)) else Now(s, k, v, now, hi)
  }

  lemma FewerWindows(s: Settings, full: nat, now: Time, later: Time, hi: Time)
    requires s.Valid() && now <= later <= hi
    ensures 0 <= full * Windows(s, later, hi) <= full * Windows(s, now, hi)
    ensures later >= now + s.lockLength ==> full * (1 + Windows(s, later, hi)) <= full * Windows(s, now, hi)
    ensures full * (1 + Windows(s, later, hi)) == full + full * Windows(s, later, hi)
  {
    QuotientGrows(hi - later, hi - now, s.lockLength);
    QuotientGrows(0, hi - later, s.lockLength);
    MulGrows(full, 0, Windows(s, later, hi));
    MulGrows(full, Windows(s, later, hi), Windows(s, now, hi));
    if later >= now + s.lockLength {
      QuotientGrows(hi - later, hi - now - s.lockLength, s.lockLength);
      QuotientStep(hi - now, s.lockLength);
      MulGrows(full, 1 + Windows(s, later, hi), Windows(s, now, hi));
    }
  }

  /** Waiting never adds to the budget. */
  lemma BudgetWaits(s: Settings, k: nat, v: Server, now: Time, later: Time, hi: Time)
    requires Sound(s, v, now) && Busies(v.workers) <= k && now <= later <= hi
    ensures Sound(s, v, later) && Budget(s, k, v, later, hi) <= Budget(s, k, v, now, hi)
  {
    hide Rest, Windows, MaxFailures, Busies;
    var full := MaxFailures(k, s.maxChance);
    FewerWindows(s, full, now, later, hi);
    if now < v.stored.effectiveTime <= later {
      RestBounds(s, k, v, later);
      FewerWindows(s, full, v.stored.effectiveTime, later, hi);
    } else {
      RestWaits(s, k, v, now, later);
    }
  }

  /** A failure uses up one unit of the budget. */
  lemma FailurePays(s: Settings, k: nat, v: Server, t: Timed, hi: Time)
    requires Sound(s, v, t.now) && Busies(v.workers) <= k && t.now <= hi && Ends(v, t, false)
    ensures Sound(s, Act(s, v, t), t.now) && Busies(Act(s, v, t).workers) <= k
    ensures 1 + Budget(s, k, Act(s, v, t), t.now, hi) <= Budget(s, k, v, t.now, hi)
  {
    var full, v' := MaxFailures(k, s.maxChance), Act(s, v, t);
    SoundLater(s, v, t.now, t);
    RestAfterFailure(s, k, v, t);
    RestBounds(s, k, v', t.now);
    assert v'.stored.effectiveTime <= t.now || v'.stored.effectiveTime == t.now + s.lockLength;
    FewerWindows(s, full, t.now, t.now, hi);
    if v'.stored.effectiveTime == t.now + s.lockLength <= hi {
      FewerWindows(s, full, t.now, t.now + s.lockLength, hi);
    }
    hide Rest, Windows, MaxFailures, Act, Sound;
  }

  /** A budget is never more than one round for each lock length begun. */
  lemma {:induction false} BudgetAtMost(s: Settings, k: nat, v: Server, now: Time, hi: Time)
    requires Sound(s, v, now) && Busies(v.workers) <= k && now <= hi
    ensures 0 <= Budget(s, k, v, now, hi) <= MaxFailures(k, s.maxChance) * (1 + Windows(s, now, hi))
    ensures Budget(s, k, v, now, hi) >= MaxFailures(k, s.maxChance) * Windows(s, now, hi)
  {
    var full := MaxFailures(k, s.maxChance);
    RestBounds(s, k, v, now);
    FewerWindows(s, full, now, now, hi);
    if now < v.stored.effectiveTime <= hi {
      FewerWindows(s, full, now, v.stored.effectiveTime, hi);
    }
    hide Rest, Windows, MaxFailures;
  }

  /** An administrator's write costs at most one round more. */
  lemma {:induction false} AdminPays(s: Settings, k: nat, v: Server, t: Timed, hi: Time)
    requires Sound(s, v, t.now) && Busies(v.workers) <= k && t.now <= hi && t.move.Admin?
    ensures Sound(s, Act(s, v, t), t.now) && Busies(Act(s, v, t).workers) <= k
    ensures Budget(s, k, Act(s, v, t), t.now, hi) <= Budget(s, k, v, t.now, hi) + MaxFailures(k, s.maxChance)
  {
    SoundLater(s, v, t.now, t);
    BudgetAtMost(s, k, v, t.now, hi);
    BudgetAtMost(s, k, Act(s, v, t), t.now, hi);
    FewerWindows(s, MaxFailures(k, s.maxChance), t.now, t.now, hi);
    hide Budget, Windows, MaxFailures;
  }

  lemma OtherwiseFree(s: Settings, k: nat, v: Server, t: Timed, hi: Time)
    requires Sound(s, v, t.now) && Busies(v.workers) <= k && Busies(Act(s, v, t).workers) <= k && t.now <= hi
    requires !t.move.Admin? && !Ends(v, t, false) && !Ends(v, t, true)
    ensures Sound(s, Act(s, v, t), t.now)
    ensures Budget(s, k, Act(s, v, t), t.now, hi) == Budget(s, k, v, t.now, hi)
  {
    SoundLater(s, v, t.now, t);
    if t.move.Begin? {
      RestAfterBegin(s, k, v, t);
    }
    hide Rest, Windows;
  }

  lemma {:induction false} NoneAfter(s: Settings, v: Server, run: seq<Timed>, lo: Time, hi: Time)
    requires From(run, hi + 1)
    ensures FailuresIn(s, v, run, lo, hi) == 0
    decreases |run|
  {
    if run != [] {
      NoneAfter(s, Act(s, v, run[0]), run[1..], lo, hi);
    }
  }

  lemma {:induction false} FailuresFitBudget(s: Settings, k: nat, v: Server, run: seq<Timed>, now: Time, lo: Time, hi: Time)
    requires Sound(s, v, now) && lo <= now <= hi && Sorted(run) && From(run, now)
    requires NoLogin(s, v, run, lo, hi) && AtMost(s, v, run, k)
    ensures FailuresIn(s, v, run, lo, hi)
         <= Budget(s, k, v, now, hi) + MaxFailures(k, s.maxChance) * Admins(run, lo, hi)
    decreases |run|
  {
    hide Budget, Sound, Act, Ends, MaxFailures;
    var full := MaxFailures(k, s.maxChance);
    if run == [] {
      BudgetAtMost(s, k, v, now, hi);
    } else {
      var t, rest := run[0], run[1..];
      if t.now > hi {
        assert From(run, hi + 1);
        NoneAfter(s, v, run, lo, hi);
        BudgetAtMost(s, k, v, now, hi);
        MulGrows(full, 0, Admins(run, lo, hi));
      } else {
        BudgetWaits(s, k, v, now, t.now, hi);
        assert AtMost(s, Act(s, v, t), rest, k) && Busies(Act(s, v, t).workers) <= k;
        MovePays(s, k, v, t, hi);
        FailuresFitBudget(s, k, Act(s, v, t), rest, t.now, lo, hi);
        OneMore(full, Admins(rest, lo, hi));
      }
    }
  }

  lemma OneMore(full: nat, n: nat)
    ensures full * (1 + n) == full + full * n
  {
  }

  lemma {:induction false} MovePays(s: Settings, k: nat, v: Server, t: Timed, hi: Time)
    requires Sound(s, v, t.now) && Busies(v.workers) <= k && Busies(Act(s, v, t).workers) <= k && t.now <= hi
    requires !Ends(v, t, true)
    ensures Sound(s, Act(s, v, t), t.now)
    ensures (if Ends(v, t, false) then 1 else 0) + Budget(s, k, Act(s, v, t), t.now, hi)
         <= Budget(s, k, v, t.now, hi) + if t.move.Admin? then MaxFailures(k, s.maxChance) else 0
  {
    hide Budget, Sound, Act, MaxFailures;
    if t.move.Admin? {
      AdminPays(s, k, v, t, hi);
    } else if Ends(v, t, false) {
      FailurePays(s, k, v, t, hi);
    } else {
      OtherwiseFree(s, k, v, t, hi);
    }
  }

  /** A run from a sound state on, never with more than `k` attempts at once, and a window without a login. */
  predicate Allowed(s: Settings, k: nat, v: Server, run: seq<Timed>, now: Time, lo: Time, hi: Time) {
    && Sound(s, v, now) && Sorted(run) && From(run, now) && now <= lo <= hi
    && NoLogin(s, v, run, lo, hi) && AtMost(s, v, run, k)
  }

  /**
   * With at most `k` attempts at once, a closed window without a successful login holds at most
   * C(k + MAX_CHANCE, MAX_CHANCE) - 1 failures for each lock length begun and each administrator's write.
   */
  lemma {:induction false} OverlapRateBound(s: Settings, k: nat, v: Server, run: seq<Timed>, now: Time, lo: Time, hi: Time)
    requires Allowed(s, k, v, run, now, lo, hi)
    ensures FailuresIn(s, v, run, lo, hi)
         <= (Choose(k + s.maxChance, s.maxChance) - 1) * ((hi - lo) / s.lockLength + 1 + Admins(run, lo, hi))
    decreases |run|
  {
    MaxFailuresIs(k, s.maxChance);
    hide Budget, Act, MaxFailures, Choose, Windows;
    if run == [] || run[0].now >= lo {
      assert From(run, lo);
      FailuresFitBudget(s, k, v, run, lo, lo, hi);
      BudgetAtMost(s, k, v, lo, hi);
      Split(MaxFailures(k, s.maxChance), Windows(s, lo, hi), Admins(run, lo, hi));
      assert Windows(s, lo, hi) == (hi - lo) / s.lockLength by { WindowsAre(s, lo, hi); }
    } else {
      SoundLater(s, v, now, run[0]);
      assert From(run[1..], run[0].now);
      OverlapRateBound(s, k, Act(s, v, run[0]), run[1..], run[0].now, lo, hi);
    }
  }

  lemma WindowsAre(s: Settings, lo: Time, hi: Time)
    requires s.Valid()
    ensures Windows(s, lo, hi) == (hi - lo) / s.lockLength
  {
  }

  lemma Split(full: nat, q: int, n: nat)
    ensures full * (1 + q) + full * n == full * (q + 1 + n)
  {
  }

  // ----- Runs in parts -----

  lemma {:induction false} RunConcat(s: Settings, v: Server, a: seq<Timed>, b: seq<Timed>, lo: Time, hi: Time, k: nat)
    ensures var w := AfterAll(s, v, a);
            && AfterAll(s, v, a + b) == AfterAll(s, w, b)
            && FailuresIn(s, v, a + b, lo, hi) == FailuresIn(s, v, a, lo, hi) + FailuresIn(s, w, b, lo, hi)
            && (AtMost(s, v, a, k) && AtMost(s, w, b, k) ==> AtMost(s, v, a + b, k))
    decreases |a|
  {
    hide Act, Ends;
    if a == [] {
      assert a + b == b;
    } else {
      assert (a + b)[1..] == a[1..] + b;
      RunConcat(s, Act(s, v, a[0]), a[1..], b, lo, hi, k);
    }
  }

  lemma {:induction false} RunOne(s: Settings, v: Server, t: Timed, lo: Time, hi: Time, k: nat)
    ensures AfterAll(s, v, [t]) == Act(s, v, t)
    ensures FailuresIn(s, v, [t], lo, hi) == if Ends(v, t, false) && lo <= t.now <= hi then 1 else 0
    ensures AtMost(s, v, [t], k) <==> Busies(v.workers) <= k && Busies(Act(s, v, t).workers) <= k
  {
    hide Act, Ends;
    assert [t][1..] == [];
    assert AfterAll(s, Act(s, v, t), []) == Act(s, v, t);
  }

  /** Wrong passwords only, and no administrator. */
  predicate Attack(run: seq<Timed>) {
    forall i :: 0 <= i < |run| ==> !run[i].move.Admin? && (run[i].move.End? ==> !run[i].move.passwordOk)
  }

  lemma {:induction false} AttackIsQuiet(s: Settings, v: Server, run: seq<Timed>, lo: Time, hi: Time)
    requires Attack(run)
    ensures NoLogin(s, v, run, lo, hi) && Admins(run, lo, hi) == 0
    decreases |run|
  {
    if run != [] {
      AttackIsQuiet(s, Act(s, v, run[0]), run[1..], lo, hi);
    }
  }

  // ----- The bound is attained -----

  /**
   * One worker reads the record and waits, the others use up all chances down to the lock, the one then
   * writes the lock away, and with one chance less it all begins again.
   */
  function Storm(k: nat, b: nat, t: Time): seq<Timed>
    decreases k + b
  {
    if k == 0 || b == 0 then []
    else [Timed(t, Begin(k - 1))] + Storm(k - 1, b, t) + [Timed(t, End(k - 1, false))] + Storm(k, b - 1, t)
  }

  predicate FirstIdle(v: Server, k: nat) {
    k <= |v.workers| && forall i :: 0 <= i < k ==> v.workers[i].Idle?
  }

  lemma {:induction false} StormIsAttack(k: nat, b: nat, t: Time)
    ensures Attack(Storm(k, b, t)) && forall i :: 0 <= i < |Storm(k, b, t)| ==> Storm(k, b, t)[i].now == t
    decreases k + b
  {
    if k > 0 && b > 0 {
      StormIsAttack(k - 1, b, t);
      StormIsAttack(k, b - 1, t);
    }
  }

  /** What stands behind the storm, which failures it holds, and how many attempts it adds at once. */
  predicate Stormed(s: Settings, v: Server, k: nat, b: nat, t: Time, lo: Time, hi: Time) {
    var run := Storm(k, b, t);
    && AfterAll(s, v, run) == (if k == 0 || b == 0 then v else v.(stored := State(0, t + s.lockLength)))
    && FailuresIn(s, v, run, lo, hi) == MaxFailures(k, b)
    && AtMost(s, v, run, Busies(v.workers) + k)
  }

  lemma StormBegins(s: Settings, v: Server, k: nat, t: Time)
    requires k > 0 && FirstIdle(v, k) && v.stored.effectiveTime <= t
    ensures var v1 := Act(s, v, Timed(t, Begin(k - 1)));
            && v1 == v.(workers := v.workers[k - 1 := Busy(v.stored)])
            && FirstIdle(v1, k - 1) && Busies(v1.workers) == Busies(v.workers) + 1
            && !Ends(v, Timed(t, Begin(k - 1)), false)
  {
    WorkerChanges(s, v.workers, k - 1, Busy(v.stored), t, 0);
  }

  lemma StormWrites(s: Settings, v: Server, stored: State, k: nat, b: nat, t: Time)
    requires s.Valid() && k > 0 && FirstIdle(v, k) && v.stored.effectiveTime <= t
    requires 1 <= b <= s.maxChance && v.stored.failChances == s.maxChance - b
    ensures var v2 := Server(stored, v.workers[k - 1 := Busy(v.stored)]);
            var move := Timed(t, End(k - 1, false));
            && Ends(v2, move, false)
            && Act(s, v2, move) == v.(stored := if b == 1 then State(0, t + s.lockLength)
                                               else State(s.maxChance - (b - 1), v.stored.effectiveTime))
  {
    assert v.workers[k - 1 := Busy(v.stored)][k - 1 := Idle] == v.workers;
  }

  lemma {:induction false} StormFails(s: Settings, v: Server, k: nat, b: nat, t: Time, lo: Time, hi: Time)
    requires s.Valid() && FirstIdle(v, k) && b <= s.maxChance && lo <= t <= hi
    requires b > 0 ==> v.stored.failChances == s.maxChance - b && v.stored.effectiveTime <= t
    ensures Stormed(s, v, k, b, t, lo, hi)
    decreases k + b
  {
    if k == 0 || b == 0 {
      NoneAndOne(b);
    } else {
      var begin, end := Timed(t, Begin(k - 1)), Timed(t, End(k - 1, false));
      var inner, outer := Storm(k - 1, b, t), Storm(k, b - 1, t);
      var v1 := Act(s, v, begin);
      StormBegins(s, v, k, t);
      StormFails(s, v1, k - 1, b, t, lo, hi);
      var v2 := AfterAll(s, v1, inner);
      StormWrites(s, v, v2.stored, k, b, t);
      var v3 := Act(s, v2, end);
      StormFails(s, v3, k, b - 1, t, lo, hi);
      StormParts(s, v, v1, v2, v3, k, b, t, lo, hi);
    }
  }

  lemma {:induction false} StormParts(s: Settings, v: Server, v1: Server, v2: Server, v3: Server, k: nat, b: nat, t: Time, lo: Time, hi: Time)
    requires k > 0 && b > 0 && lo <= t <= hi
    requires v1 == Act(s, v, Timed(t, Begin(k - 1))) && v2 == AfterAll(s, v1, Storm(k - 1, b, t))
    requires v3 == Act(s, v2, Timed(t, End(k - 1, false))) && v3.workers == v.workers
    requires !Ends(v, Timed(t, Begin(k - 1)), false) && Ends(v2, Timed(t, End(k - 1, false)), false)
    requires Busies(v1.workers) == Busies(v.workers) + 1 && v2.workers == v1.workers
    requires Stormed(s, v1, k - 1, b, t, lo, hi) && Stormed(s, v3, k, b - 1, t, lo, hi)
    requires b == 1 ==> v3.stored == State(0, t + s.lockLength)
    ensures Stormed(s, v, k, b, t, lo, hi)
  {
    var begin, end := Timed(t, Begin(k - 1)), Timed(t, End(k - 1, false));
    var inner, outer := Storm(k - 1, b, t), Storm(k, b - 1, t);
    hide Storm, Act, Ends, AfterAll, FailuresIn, AtMost, MaxFailures, Busies, InTurn;
    StormIs(k, b, t);
    FourParts(s, v, begin, inner, end, outer, lo, hi, Busies(v.workers) + k);
  }

  function InTurn(begin: Timed, inner: seq<Timed>, end: Timed, outer: seq<Timed>): seq<Timed> {
    [begin] + inner + [end] + outer
  }

  lemma StormIs(k: nat, b: nat, t: Time)
    requires k > 0 && b > 0
    ensures Storm(k, b, t)
         == InTurn(Timed(t, Begin(k - 1)), Storm(k - 1, b, t), Timed(t, End(k - 1, false)), Storm(k, b - 1, t))
    ensures MaxFailures(k, b) == MaxFailures(k - 1, b) + 1 + MaxFailures(k, b - 1)
  {
    WaysSum(k - 1, b);
  }

  lemma {:induction false} FourParts(s: Settings, v: Server, begin: Timed, inner: seq<Timed>, end: Timed, outer: seq<Timed>,
                  lo: Time, hi: Time, most: nat)
    ensures var v1 := Act(s, v, begin);
            var v2 := AfterAll(s, v1, inner);
            var v3 := Act(s, v2, end);
            var run := InTurn(begin, inner, end, outer);
            && AfterAll(s, v, run) == AfterAll(s, v3, outer)
            && FailuresIn(s, v, run, lo, hi)
               == (if Ends(v, begin, false) && lo <= begin.now <= hi then 1 else 0) + FailuresIn(s, v1, inner, lo, hi)
                  + (if Ends(v2, end, false) && lo <= end.now <= hi then 1 else 0) + FailuresIn(s, v3, outer, lo, hi)
            && (Busies(v.workers) <= most && AtMost(s, v1, inner, most) && Busies(v1.workers) <= most
                && Busies(v2.workers) <= most && Busies(v3.workers) <= most && AtMost(s, v3, outer, most)
                ==> AtMost(s, v, run, most))
  {
    var v1 := Act(s, v, begin);
    var v2 := AfterAll(s, v1, inner);
    assert InTurn(begin, inner, end, outer) == [begin] + inner + [end] + outer;
    hide *;
    RunOne(s, v, begin, lo, hi, most);
    RunOne(s, v2, end, lo, hi, most);
    RunConcat(s, v, [begin], inner, lo, hi, most);
    RunConcat(s, v, [begin] + inner, [end], lo, hi, most);
    RunConcat(s, v, [begin] + inner + [end], outer, lo, hi, most);
  }

  /** A storm at the beginning, and another whenever the lock runs out. */
  function Storms(s: Settings, k: nat, t: Time, hi: Time): seq<Timed>
    requires s.Valid()
    decreases hi - t
  {
    if t > hi then [] else Storm(k, s.maxChance, t) + Storms(s, k, t + s.lockLength, hi)
  }

  lemma {:induction false} StormsAreAttack(s: Settings, k: nat, t: Time, hi: Time)
    requires s.Valid()
    ensures Attack(Storms(s, k, t, hi)) && Sorted(Storms(s, k, t, hi)) && From(Storms(s, k, t, hi), t)
    decreases hi - t
  {
    if t <= hi {
      StormIsAttack(k, s.maxChance, t);
      StormsAreAttack(s, k, t + s.lockLength, hi);
    }
  }

  lemma {:induction false} StormsFail(s: Settings, v: Server, k: nat, t: Time, lo: Time, hi: Time)
    requires s.Valid() && FirstIdle(v, k) && lo <= t <= hi && v.stored.failChances == 0 && v.stored.effectiveTime <= t
    ensures FailuresIn(s, v, Storms(s, k, t, hi), lo, hi) == MaxFailures(k, s.maxChance) * ((hi - t) / s.lockLength + 1)
    ensures AtMost(s, v, Storms(s, k, t, hi), Busies(v.workers) + k)
    decreases hi - t
  {
    var next := t + s.lockLength;
    StormFails(s, v, k, s.maxChance, t, lo, hi);
    RunConcat(s, v, Storm(k, s.maxChance, t), Storms(s, k, next, hi), lo, hi, Busies(v.workers) + k);
    BurstCount(MaxFailures(k, s.maxChance), hi - t, s.lockLength);
    var v' := AfterAll(s, v, Storm(k, s.maxChance, t));
    hide Storm, FailuresIn, MaxFailures;
    if next <= hi {
      StormsFail(s, v', k, next, lo, hi);
    } else {
      assert Storms(s, k, next, hi) == [];
      NothingMore(s, v', lo, hi, Busies(v.workers) + k);
    }
  }

  lemma {:induction false} NothingMore(s: Settings, v: Server, lo: Time, hi: Time, k: nat)
    requires Busies(v.workers) <= k
    ensures AfterAll(s, v, []) == v && FailuresIn(s, v, [], lo, hi) == 0 && AtMost(s, v, [], k)
  {
  }

  lemma {:induction false} NoneBusy(ws: seq<Worker>)
    requires forall i :: 0 <= i < |ws| ==> ws[i].Idle?
    ensures Busies(ws) == 0
  {
    if ws != [] {
      NoneBusy(ws[1..]);
    }
  }

  /** No smaller bound holds, for any settings, any window, and any number of attempts at once the pool allows. */
  lemma {:induction false} OverlapBoundIsAttained(s: Settings, k: nat, v: Server, lo: Time, hi: Time)
    requires s.Valid() && lo <= hi && k <= |v.workers| && forall i :: 0 <= i < |v.workers| ==> v.workers[i].Idle?
    requires v.stored.failChances == 0 && v.stored.effectiveTime <= lo
    ensures var run := Storms(s, k, lo, hi);
            && Allowed(s, k, v, run, lo, lo, hi) && Admins(run, lo, hi) == 0
            && FailuresIn(s, v, run, lo, hi) == (Choose(k + s.maxChance, s.maxChance) - 1) * ((hi - lo) / s.lockLength + 1)
  {
    hide Storms, FailuresIn, Choose, MaxFailures, Sorted, From, NoLogin, AtMost, Attack;
    NoneBusy(v.workers);
    StormsFail(s, v, k, lo, lo, hi);
    StormsAreAttack(s, k, lo, hi);
    AttackIsQuiet(s, v, Storms(s, k, lo, hi), lo, hi);
    MaxFailuresIs(k, s.maxChance);
  }

  // ----- When the serial bound holds -----

  /** The bound for attempts one by one, on every run with at most `k` at once and in every window. */
  ghost predicate SerialBoundHolds(s: Settings, k: nat)
    requires s.Valid()
  {
    forall v: Server, run: seq<Timed>, now: Time, lo: Time, hi: Time :: Allowed(s, k, v, run, now, lo, hi) ==>
      FailuresIn(s, v, run, lo, hi) <= s.maxChance * ((hi - lo) / s.lockLength + 1 + Admins(run, lo, hi))
  }

  /** The serial bound holds in every run and window exactly if at most one attempt is under way at once. */
  lemma SerialBoundExactly(s: Settings, k: nat)
    requires s.Valid()
    ensures SerialBoundHolds(s, k) <==> k <= 1
  {
    if k <= 1 {
      forall v: Server, run: seq<Timed>, now: Time, lo: Time, hi: Time | Allowed(s, k, v, run, now, lo, hi)
        ensures FailuresIn(s, v, run, lo, hi) <= s.maxChance * ((hi - lo) / s.lockLength + 1 + Admins(run, lo, hi))
      {
        hide FailuresIn, Choose, MaxFailures;
        OverlapRateBound(s, k, v, run, now, lo, hi);
        MaxFailuresIs(k, s.maxChance);
        RoundsPositive(s, run, lo, hi);
        MulGrows((hi - lo) / s.lockLength + 1 + Admins(run, lo, hi), MaxFailures(k, s.maxChance), s.maxChance);
      }
    } else {
      PassedByOverlap(s, k);
    }
  }

  /** Two attempts at once suffice to pass it. */
  lemma PassedByOverlap(s: Settings, k: nat)
    requires s.Valid() && k >= 2
    ensures !SerialBoundHolds(s, k)
  {
    var v := Server(State(0, 0), seq(k, _ => Idle));
    var run := Storms(s, k, 0, 0);
    OverlapBoundIsAttained(s, k, v, 0, 0);
    MaxFailuresIs(k, s.maxChance);
    assert (0 - 0) / s.lockLength == 0;
    hide Storms, FailuresIn, Admins, MaxFailures, Choose, Allowed;
    assert Allowed(s, k, v, run, 0, 0, 0);
  }

  lemma {:induction false} RoundsPositive(s: Settings, run: seq<Timed>, lo: Time, hi: Time)
    requires s.Valid() && lo <= hi
    ensures (hi - lo) / s.lockLength + 1 + Admins(run, lo, hi) >= 1
  {
    QuotientGrows(0, hi - lo, s.lockLength);
  }

  /** Two attempts read the record at once; one worker goes on to the lock, and the other then writes it away. */
  function TwoAtOnce(s: Settings, t: Time): seq<Timed> {
    [Timed(t, Begin(1))] + Storm(1, s.maxChance, t) + [Timed(t, End(1, false))]
  }

  /**
   * For all settings, and any pool with two idle workers: one failure more than the limit in one moment, and
   * unless a single failure locks, the account is open again.
   */
  lemma {:induction false} LockWrittenAway(s: Settings, v: Server, t: Time)
    requires s.Valid() && FirstIdle(v, 2) && v.stored.failChances == 0 && v.stored.effectiveTime <= t
    ensures FailuresIn(s, v, TwoAtOnce(s, t), t, t) == s.maxChance + 1
    ensures s.maxChance >= 2 ==> AfterAll(s, v, TwoAtOnce(s, t)) == v.(stored := State(1, v.stored.effectiveTime))
  {
    var begin, end, inner := Timed(t, Begin(1)), Timed(t, End(1, false)), Storm(1, s.maxChance, t);
    var v1 := Act(s, v, begin);
    StormBegins(s, v, 2, t);
    StormFails(s, v1, 1, s.maxChance, t, t, t);
    NoneAndOne(s.maxChance);
    var v2 := AfterAll(s, v1, inner);
    StormWrites(s, v, v2.stored, 2, s.maxChance, t);
    hide Storm, Act, Ends, AfterAll, FailuresIn, AtMost, MaxFailures, Ways;
    RunOne(s, v, begin, t, t, 0);
    RunOne(s, v2, end, t, t, 0);
    RunConcat(s, v, [begin], inner, t, t, 0);
    RunConcat(s, v, [begin] + inner, [end], t, t, 0);
  }

  // ----- Attempts one by one are the runs of one worker -----

  /** The moves of attempts one by one. */
  function Moves(run: seq<Attempt>): seq<Timed> {
    if run == [] then []
    else [Timed(run[0].checked, Begin(0)), Timed(run[0].finished, End(0, run[0].passwordOk))] + Moves(run[1..])
  }

  lemma {:induction false} SerialIsOneWorker(s: Settings, u: State, run: seq<Attempt>, lo: Time, hi: Time)
    ensures var v := Server(u, [Idle]);
            && AfterAll(s, v, Moves(run)) == Server(After(s, u, run), [Idle])
            && FailuresIn(s, v, Moves(run), lo, hi) == Failures(s, u, run, lo, hi)
            && AtMost(s, v, Moves(run), 1)
    decreases |run|
  {
    var v := Server(u, [Idle]);
    if run != [] {
      var a := run[0];
      var begin, end := Timed(a.checked, Begin(0)), Timed(a.finished, End(0, a.passwordOk));
      AttemptMoves(s, u, a);
      var v1 := Act(s, v, begin);
      var rest := Moves(run[1..]);
      SerialIsOneWorker(s, Step(s, u, a), run[1..], lo, hi);
      assert Moves(run) == [begin] + ([end] + rest);
      hide Act, Ends, AfterAll, FailuresIn, AtMost, Moves;
      RunOne(s, v, begin, lo, hi, 1);
      RunOne(s, v1, end, lo, hi, 1);
      RunConcat(s, v1, [end], rest, lo, hi, 1);
      RunConcat(s, v, [begin], [end] + rest, lo, hi, 1);
    }
  }

  lemma AttemptMoves(s: Settings, u: State, a: Attempt)
    ensures var v := Server(u, [Idle]);
            var begin, end := Timed(a.checked, Begin(0)), Timed(a.finished, End(0, a.passwordOk));
            var v1 := Act(s, v, begin);
            && Act(s, v1, end) == Server(Step(s, u, a), [Idle])
            && !Ends(v, begin, false) && (Ends(v1, end, false) <==> Verdict(u, a) == Failed)
            && Busies(v.workers) <= 1 && Busies(v1.workers) <= 1
  {
    assert [Idle][0 := Busy(u)] == [Busy(u)] && [Busy(u)][0 := Idle] == [Idle];
  }
}
