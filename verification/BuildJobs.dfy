/** Admission of build jobs: a check, then an add, interleaved with the scheduler's events. */
module BuildJobs {
  import opened Wrappers

  type JobId = nat
  type Caller = nat

  datatype Status = PENDING | SUBMITTED | EXECUTED | ERROR {
    predicate Running() {
      PENDING? || SUBMITTED?
    }
  }

  /** A scheduler event; an error carries the description of a bad request, if it was one. */
  datatype Event =
    | Added(id: JobId)
    | Submitted(id: JobId)
    | Executed(id: JobId)
    | Failed(id: JobId, badRequest: Option<string>)

  type Records = map<JobId, Status>

  function RunningSet(records: Records): set<JobId> {
    set id | id in records && records[id].Running()
  }

  function StatusOf(e: Event): Status {
    match e
    case Added(_) => PENDING
    case Submitted(_) => SUBMITTED
    case Executed(_) => EXECUTED
    case Failed(_, _) => ERROR
  }

  function Listened(records: Records, e: Event): Records {
    records[e.id := StatusOf(e)]
  }

  // ----- The manager -----

  class BuildJobManager {
    var records: Records
    var infos: map<JobId, string>
    var errors: map<JobId, string>
    const maxJobs: nat

    constructor (maxJobs: nat)
      ensures this.maxJobs == maxJobs && records == map[] && infos == map[] && errors == map[]
    {
      this.maxJobs := maxJobs;
      records, infos, errors := map[], map[], map[];
    }

    /** The count over all records, in whatever order they come. */
    method RunningJobs() returns (n: nat)
      ensures n == |RunningSet(records)|
    {
      n := 0;
      var todo := records.Keys;
      while todo != {}
        invariant todo <= records.Keys
        invariant n == |RunningSet(records) - todo|
        decreases todo
      {
        var id :| id in todo;
        if records[id].Running() {
          assert RunningSet(records) - (todo - {id}) == (RunningSet(records) - todo) + {id};
          n := n + 1;
        } else {
          assert RunningSet(records) - (todo - {id}) == RunningSet(records) - todo;
        }
        todo := todo - {id};
      }
      assert RunningSet(records) - {} == RunningSet(records);
    }

    /** The first step of `add_job`; a refusal is `MaxJobsReached`. */
    method CheckAdmission() returns (admitted: bool)
      ensures admitted <==> |RunningSet(records)| < maxJobs
    {
      var running := RunningJobs();
      return running < maxJobs;
    }

    /** The last step of `add_job`, after the scheduler has taken the job. */
    method NoteWorkspace(id: JobId, workspace: string)
      modifies this
      ensures infos == old(infos)[id := workspace] && records == old(records) && errors == old(errors)
    {
      infos := infos[id := workspace];
    }

    method Listener(e: Event)
      modifies this
      ensures records == Listened(old(records), e)
      ensures infos == if e.Executed? || e.Failed? then old(infos) - {e.id} else old(infos)
      ensures errors == if e.Failed? && e.badRequest.Some? then old(errors)[e.id := e.badRequest.value] else old(errors)
    {
      match e
      case Added(id) => records := records[id := PENDING];
      case Submitted(id) => records := records[id := SUBMITTED];
      case Executed(id) =>
        records := records[id := EXECUTED];
        if id in infos {
          infos := infos - {id};
        }
      case Failed(id, badRequest) =>
        records := records[id := ERROR];
        if badRequest.Some? {
          errors := errors[id := badRequest.value];
        }
        if id in infos {
          infos := infos - {id};
        }
    }
  }

  // ----- Interleaved steps -----

  /** Where a caller inside `add_job` stands: past the check, or past the scheduler's ADDED event. */
  datatype Phase = Admitted | Dispatched(id: JobId)

  /** `finished` remembers the jobs that have had an EXECUTED or ERROR event. */
  datatype System = System(records: Records, infos: set<JobId>, inside: map<Caller, Phase>, finished: set<JobId>)

  datatype Step =
    | Check(caller: Caller)
    | Dispatch(caller: Caller, id: JobId)
    | Note(caller: Caller)
    | Deliver(e: Event)

  /**
   * What may happen next: at most `k` callers inside, and a new job has a new id. After its ADDED event
   * a job's events come in any order, any number of times.
   */
  predicate Enabled(k: nat, s: System, a: Step) {
    match a
    case Check(c) => c !in s.inside && |s.inside| < k
    case Dispatch(c, id) => c in s.inside && s.inside[c] == Admitted && id !in s.records
    case Note(c) => c in s.inside && s.inside[c].Dispatched?
    case Deliver(e) => !e.Added? && e.id in s.records
  }

  /** The event order of the scheduler's contract: ADDED, SUBMITTED, then EXECUTED or ERROR. */
  predicate InOrder(s: System, a: Step) {
    a.Deliver? && a.e.id in s.records ==>
      s.records[a.e.id] == match a.e
                           case Submitted(_) => PENDING
                           case _ => SUBMITTED
  }

  function Next(max: nat, s: System, a: Step): System {
    match a
    case Check(c) => if |RunningSet(s.records)| >= max then s else s.(inside := s.inside[c := Admitted])
    case Dispatch(c, id) => s.(records := Listened(s.records, Added(id)), inside := s.inside[c := Dispatched(id)])
    case Note(c) =>
      if c in s.inside && s.inside[c].Dispatched? then
        s.(infos := s.infos + {s.inside[c].id}, inside := s.inside - {c})
      else s
    case Deliver(e) =>
      var over := e.Executed? || e.Failed?;
      s.(records := Listened(s.records, e),
         infos := if over then s.infos - {e.id} else s.infos,
         finished := if over then s.finished + {e.id} else s.finished)
  }

  function After(max: nat, steps: seq<Step>): System {
    if steps == [] then System(map[], {}, map[], {})
    else Next(max, After(max, steps[..|steps| - 1]), steps[|steps| - 1])
  }

  /** Every step is enabled in its turn. */
  predicate Legal(max: nat, k: nat, steps: seq<Step>) {
    steps != [] ==>
      && Legal(max, k, steps[..|steps| - 1])
      && Enabled(k, After(max, steps[..|steps| - 1]), steps[|steps| - 1])
  }

  predicate AllInOrder(max: nat, steps: seq<Step>) {
    steps != [] ==>
      && AllInOrder(max, steps[..|steps| - 1])
      && InOrder(After(max, steps[..|steps| - 1]), steps[|steps| - 1])
  }

  /** Finished jobs that count as running again, because a SUBMITTED event came late. */
  function Late(s: System): set<JobId> {
    RunningSet(s.records) * s.finished
  }

  function AdmittedIn(inside: map<Caller, Phase>): set<Caller> {
    set c | c in inside && inside[c] == Admitted
  }

  function AdmittedSet(s: System): set<Caller> {
    AdmittedIn(s.inside)
  }

  predicate Inv(max: nat, k: nat, s: System) {
    && |s.inside| <= k
    && |RunningSet(s.records) - s.finished| + |AdmittedSet(s)| <= max + (if k > 0 then k - 1 else 0)
    && s.finished <= s.records.Keys
    && (forall id :: id in s.records && id !in s.finished ==> s.records[id].Running())
    && (forall c :: c in s.inside && s.inside[c].Dispatched? ==> s.inside[c].id in s.records)
    // the workspace of a running job is known once its `add_job` has returned
    && (forall id :: id in RunningSet(s.records) && id !in s.finished ==>
          id in s.infos || exists c :: c in s.inside && s.inside[c] == Dispatched(id))
  }

  lemma AdmittedFew(s: System)
    ensures |AdmittedSet(s)| <= |s.inside|
  {
    assert AdmittedSet(s) <= s.inside.Keys;
    assert s.inside.Keys == AdmittedSet(s) + (s.inside.Keys - AdmittedSet(s));
  }

  lemma KeySetIs(a: map<Caller, Phase>, b: map<Caller, Phase>)
    ensures a.Keys == b.Keys ==> |a| == |b|
    ensures forall c :: c !in a && b.Keys == a.Keys + {c} ==> |b| == |a| + 1
  {
    assert |a| == |a.Keys| && |b| == |b.Keys|;
  }

  lemma OneMoreAdmitted(inside: map<Caller, Phase>, c: Caller)
    requires c !in inside
    ensures |inside[c := Admitted]| == |inside| + 1
    ensures |AdmittedIn(inside[c := Admitted])| == |AdmittedIn(inside)| + 1
  {
    var more := inside[c := Admitted];
    assert more.Keys == inside.Keys + {c};
    KeySetIs(inside, more);
    assert AdmittedIn(more) == AdmittedIn(inside) + {c};
    assert c !in AdmittedIn(inside);
    hide AdmittedIn;
  }

  lemma WorkspacesKept(s: System, t: System, kept: set<JobId>)
    requires forall id :: id in kept ==> id in s.infos || exists c :: c in s.inside && s.inside[c] == Dispatched(id)
    requires s.infos <= t.infos && forall c :: c in s.inside ==> c in t.inside && t.inside[c] == s.inside[c]
    ensures forall id :: id in kept ==> id in t.infos || exists c :: c in t.inside && t.inside[c] == Dispatched(id)
  {
    forall id | id in kept
      ensures id in t.infos || exists c :: c in t.inside && t.inside[c] == Dispatched(id)
    {
      if id !in s.infos {
        var d :| d in s.inside && s.inside[d] == Dispatched(id);
        assert d in t.inside && t.inside[d] == Dispatched(id);
      }
    }
  }

  lemma CheckKeepsInv(max: nat, k: nat, s: System, c: Caller)
    requires Inv(max, k, s) && Enabled(k, s, Check(c))
    ensures Inv(max, k, Next(max, s, Check(c)))
  {
    AdmittedFew(s);
    if |RunningSet(s.records)| < max {
      var t := Next(max, s, Check(c));
      OneMoreAdmitted(s.inside, c);
      Fewer(RunningSet(s.records) - s.finished, RunningSet(s.records));
      WorkspacesKept(s, t, RunningSet(s.records) - s.finished);
      hide RunningSet, AdmittedIn;
    }
  }

  lemma Fewer(a: set<JobId>, b: set<JobId>)
    requires a <= b
    ensures |a| <= |b|
  {
    assert b == a + (b - a);
  }

  lemma PendingRuns(records: Records, id: JobId)
    requires id !in records
    ensures RunningSet(Listened(records, Added(id))) == RunningSet(records) + {id}
  {
  }

  lemma NoLongerAdmitted(s: System, t: System, c: Caller, id: JobId)
    requires c in s.inside && s.inside[c] == Admitted && t.inside == s.inside[c := Dispatched(id)]
    ensures t.inside.Keys == s.inside.Keys && |t.inside| == |s.inside|
    ensures |AdmittedSet(t)| == |AdmittedSet(s)| - 1
  {
    assert t.inside.Keys == s.inside.Keys;
    KeySetIs(s.inside, t.inside);
    assert AdmittedSet(t) == AdmittedSet(s) - {c};
  }

  lemma DispatchCounts(max: nat, s: System, c: Caller, id: JobId)
    requires c in s.inside && s.inside[c] == Admitted && id !in s.records && s.finished <= s.records.Keys
    ensures var t := Next(max, s, Dispatch(c, id));
            && t.inside.Keys == s.inside.Keys && |t.inside| == |s.inside|
            && |AdmittedSet(t)| == |AdmittedSet(s)| - 1
            && RunningSet(t.records) == RunningSet(s.records) + {id}
            && |RunningSet(t.records) - t.finished| == |RunningSet(s.records) - s.finished| + 1
  {
    var t := Next(max, s, Dispatch(c, id));
    PendingRuns(s.records, id);
    NoLongerAdmitted(s, t, c, id);
    assert id !in RunningSet(s.records);
    assert RunningSet(t.records) - t.finished == (RunningSet(s.records) - s.finished) + {id};
    hide RunningSet, AdmittedIn;
  }

  lemma DispatchKeepsInv(max: nat, k: nat, s: System, c: Caller, id: JobId)
    requires Inv(max, k, s) && Enabled(k, s, Dispatch(c, id))
    ensures Inv(max, k, Next(max, s, Dispatch(c, id)))
  {
    var t := Next(max, s, Dispatch(c, id));
    DispatchCounts(max, s, c, id);
    hide AdmittedIn, RunningSet;
    forall i | i in RunningSet(t.records) && i !in t.finished
      ensures i in t.infos || exists d :: d in t.inside && t.inside[d] == Dispatched(i)
    {
      if i == id {
        assert t.inside[c] == Dispatched(id);
      } else if i !in s.infos {
        var d :| d in s.inside && s.inside[d] == Dispatched(i);
        assert d in t.inside && t.inside[d] == Dispatched(i);
      }
    }
  }

  lemma NoteKeepsInv(max: nat, k: nat, s: System, c: Caller)
    requires Inv(max, k, s) && Enabled(k, s, Note(c))
    ensures Inv(max, k, Next(max, s, Note(c)))
  {
    var t := Next(max, s, Note(c));
    assert t.inside.Keys == s.inside.Keys - {c};
    assert AdmittedSet(t) == AdmittedSet(s);
    forall i | i in RunningSet(t.records) && i !in t.finished
      ensures i in t.infos || exists d :: d in t.inside && t.inside[d] == Dispatched(i)
    {
      if i !in t.infos {
        var d :| d in s.inside && s.inside[d] == Dispatched(i);
        assert d in t.inside && t.inside[d] == Dispatched(i);
      }
    }
  }

  lemma DeliverKeepsInv(max: nat, k: nat, s: System, e: Event)
    requires Inv(max, k, s) && Enabled(k, s, Deliver(e))
    ensures Inv(max, k, Next(max, s, Deliver(e)))
  {
    var t := Next(max, s, Deliver(e));
    assert AdmittedSet(t) == AdmittedSet(s);
    assert t.records.Keys == s.records.Keys;
    assert RunningSet(t.records) - t.finished <= RunningSet(s.records) - s.finished;
    Fewer(RunningSet(t.records) - t.finished, RunningSet(s.records) - s.finished);
    forall i | i in RunningSet(t.records) && i !in t.finished
      ensures i in t.infos || exists d :: d in t.inside && t.inside[d] == Dispatched(i)
    {
    }
  }

  lemma StepKeepsInv(max: nat, k: nat, s: System, a: Step)
    requires Inv(max, k, s) && Enabled(k, s, a)
    ensures Inv(max, k, Next(max, s, a))
  {
    hide Inv, Next;
    match a
    case Check(c) => CheckKeepsInv(max, k, s, c);
    case Dispatch(c, id) => DispatchKeepsInv(max, k, s, c, id);
    case Note(c) => NoteKeepsInv(max, k, s, c);
    case Deliver(e) => DeliverKeepsInv(max, k, s, e);
  }

  /** Every reachable state keeps the admission bound, and knows the workspace of what it runs. */
  lemma {:induction false} ReachableInv(max: nat, k: nat, steps: seq<Step>)
    requires Legal(max, k, steps)
    ensures Inv(max, k, After(max, steps))
  {
    if steps == [] {
      var s := After(max, steps);
      assert RunningSet(s.records) == {} && AdmittedSet(s) == {};
    } else {
      ReachableInv(max, k, steps[..|steps| - 1]);
      StepKeepsInv(max, k, After(max, steps[..|steps| - 1]), steps[|steps| - 1]);
    }
  }

  /**
   * With at most `k` callers at once the limit is passed by at most `k - 1`, finished jobs not counted
   * whose SUBMITTED event came late, and a running job's workspace is known once `add_job` has returned.
   */
  lemma {:induction false} AdmissionBoundAnyOrder(max: nat, k: nat, steps: seq<Step>)
    requires k >= 1 && Legal(max, k, steps)
    ensures var s := After(max, steps);
            && |RunningSet(s.records)| <= max + k - 1 + |Late(s)|
            && (s.inside == map[] ==> forall id :: id in RunningSet(s.records) && id !in Late(s) ==> id in s.infos)
  {
    ReachableInv(max, k, steps);
    var s := After(max, steps);
    assert RunningSet(s.records) == (RunningSet(s.records) - s.finished) + Late(s);
  }

  lemma StepNotLate(max: nat, k: nat, s: System, a: Step)
    requires Enabled(k, s, a) && InOrder(s, a) && s.finished <= s.records.Keys
    requires forall id :: id in s.finished ==> !s.records[id].Running()
    ensures var t := Next(max, s, a);
            t.finished <= t.records.Keys && forall id :: id in t.finished ==> !t.records[id].Running()
  {
    hide RunningSet;
  }

  lemma {:induction false} NoneLate(max: nat, k: nat, steps: seq<Step>)
    requires Legal(max, k, steps) && AllInOrder(max, steps)
    ensures var s := After(max, steps);
            && s.finished <= s.records.Keys && (forall id :: id in s.finished ==> !s.records[id].Running())
            && Late(s) == {}
  {
    hide Next, Enabled, InOrder;
    if steps != [] {
      NoneLate(max, k, steps[..|steps| - 1]);
      StepNotLate(max, k, After(max, steps[..|steps| - 1]), steps[|steps| - 1]);
    }
  }

  /** If the scheduler keeps to its order of events, no job is late; serial callers then keep the limit. */
  lemma {:induction false} AdmissionBound(max: nat, k: nat, steps: seq<Step>)
    requires k >= 1 && Legal(max, k, steps) && AllInOrder(max, steps)
    ensures var s := After(max, steps);
            && |RunningSet(s.records)| <= max + k - 1
            && (k == 1 ==> |RunningSet(s.records)| <= max)
            && (s.inside == map[] ==> forall id :: id in RunningSet(s.records) ==> id in s.infos)
  {
    AdmissionBoundAnyOrder(max, k, steps);
    NoneLate(max, k, steps);
  }

  // ----- The bounds are attained -----

  ghost predicate Reachable(max: nat, k: nat, s: System) {
    exists steps :: Legal(max, k, steps) && After(max, steps) == s
  }

  lemma ReachableNext(max: nat, k: nat, s: System, a: Step)
    requires Reachable(max, k, s) && Enabled(k, s, a)
    ensures Reachable(max, k, Next(max, s, a))
  {
    hide Enabled, Next;
    var steps :| Legal(max, k, steps) && After(max, steps) == s;
    var more := steps + [a];
    assert more[..|more| - 1] == steps;
    assert Legal(max, k, more) && After(max, more) == Next(max, s, a);
  }

  /** The jobs below `late` submitted after their end, those up to `over` ended, and `n` more pending. */
  function Stages(late: nat, over: nat, n: nat): Records {
    map id | id in UpTo(over + n) :: Stage(late, over, id)
  }

  function Stage(late: nat, over: nat, id: JobId): Status {
    if id < late then SUBMITTED else if id < over then EXECUTED else PENDING
  }

  /** The numbers from `from` up to `to`. */
  function Between(from: nat, to: nat): set<nat> {
    UpTo(to) - UpTo(from)
  }

  lemma BetweenIs(from: nat, to: nat)
    ensures forall i: nat :: i in Between(from, to) <==> from <= i < to
    ensures from <= to ==> |Between(from, to)| == to - from
  {
    if from <= to {
      assert UpTo(to) == UpTo(from) + Between(from, to);
    }
  }

  lemma StagesAre(late: nat, over: nat, n: nat)
    ensures forall id: nat :: id in Stages(late, over, n) <==> id < over + n
    ensures forall id: nat :: id < over + n ==> Stages(late, over, n)[id] == Stage(late, over, id)
  {
    assert Stages(late, over, n).Keys == UpTo(over + n);
  }

  lemma {:induction false} RunningIs(late: nat, over: nat, n: nat)
    requires late <= over
    ensures RunningSet(Stages(late, over, n)) == UpTo(late) + Between(over, over + n)
    ensures UpTo(late) !! Between(over, over + n)
  {
    hide Between, Stages;
    StagesAre(late, over, n);
    BetweenIs(over, over + n);
    forall id: nat
      ensures id in RunningSet(Stages(late, over, n)) <==> id < late || over <= id < over + n
    {
    }
  }

  lemma {:induction false} RunningCount(late: nat, over: nat, n: nat)
    requires late <= over
    ensures |RunningSet(Stages(late, over, n))| == late + n
    ensures RunningSet(Stages(late, over, n)) * UpTo(over) == UpTo(late)
  {
    hide UpTo, Between, Stages, RunningSet;
    RunningIs(late, over, n);
    BetweenIs(over, over + n);
    assert |UpTo(late) + Between(over, over + n)| == |UpTo(late)| + |Between(over, over + n)|;
  }

  lemma PendingMore(over: nat, n: nat)
    ensures over + n !in Stages(0, over, n) && Stages(0, over, n)[over + n := PENDING] == Stages(0, over, n + 1)
    ensures Between(over, over + n) + {over + n} == Between(over, over + n + 1)
  {
    assert UpTo(over + n + 1) == UpTo(over + n) + {over + n};
    assert over + n !in UpTo(over);
    hide UpTo;
  }

  /** `over` jobs ended, `n` pending, every caller gone again. */
  function Filled(over: nat, n: nat): System {
    System(Stages(0, over, n), Between(over, over + n), map[], UpTo(over))
  }

  /** A caller inside `add_job`, before and after its job is added. */
  function Entered(over: nat, n: nat): System {
    Filled(over, n).(inside := map[0 := Admitted])
  }

  function JustAdded(over: nat, n: nat): System {
    System(Stages(0, over, n + 1), Between(over, over + n), map[0 := Dispatched(over + n)], UpTo(over))
  }

  lemma EntersOnce(max: nat, k: nat, over: nat, n: nat)
    requires k >= 1 && n < max
    ensures Enabled(k, Filled(over, n), Check(0)) && Next(max, Filled(over, n), Check(0)) == Entered(over, n)
  {
    hide Stages, UpTo, RunningSet, Between;
    RunningCount(0, over, n);
    assert map[][0 := Admitted] == map[0 := Admitted];
  }

  lemma AddsOnce(max: nat, k: nat, over: nat, n: nat)
    ensures Enabled(k, Entered(over, n), Dispatch(0, over + n))
    ensures Next(max, Entered(over, n), Dispatch(0, over + n)) == JustAdded(over, n)
  {
    hide Stages, UpTo, RunningSet, Between;
    PendingMore(over, n);
    var inside: map<Caller, Phase> := map[0 := Admitted];
    assert inside[0 := Dispatched(over + n)] == map[0 := Dispatched(over + n)];
  }

  lemma NotesOnce(max: nat, k: nat, over: nat, n: nat)
    ensures Enabled(k, JustAdded(over, n), Note(0)) && Next(max, JustAdded(over, n), Note(0)) == Filled(over, n + 1)
  {
    hide Stages, UpTo, RunningSet, Between;
    PendingMore(over, n);
    assert over + n + 1 == over + (n + 1);
    assert JustAdded(over, n).inside - {0} == map[];
  }

  lemma FilledNext(max: nat, k: nat, over: nat, n: nat)
    requires k >= 1 && n < max && Reachable(max, k, Filled(over, n))
    ensures Reachable(max, k, Filled(over, n + 1))
  {
    hide Reachable, Next, Enabled, Filled, Entered, JustAdded;
    EntersOnce(max, k, over, n);
    AddsOnce(max, k, over, n);
    NotesOnce(max, k, over, n);
    ReachableNext(max, k, Filled(over, n), Check(0));
    ReachableNext(max, k, Entered(over, n), Dispatch(0, over + n));
    ReachableNext(max, k, JustAdded(over, n), Note(0));
  }

  /** The one pending job comes to its end. */
  lemma EndsOnce(max: nat, k: nat, over: nat)
    ensures Enabled(k, Filled(over, 1), Deliver(Executed(over)))
    ensures Next(max, Filled(over, 1), Deliver(Executed(over))) == Filled(over + 1, 0)
  {
    assert UpTo(over + 1) == UpTo(over) + {over};
    assert Stages(0, over, 1)[over := EXECUTED] == Stages(0, over + 1, 0);
    assert Between(over, over + 1) - {over} == Between(over + 1, over + 1);
  }

  lemma EmptyReachable(max: nat, k: nat)
    ensures Reachable(max, k, Filled(0, 0))
  {
    assert Stages(0, 0, 0) == map[] && Between(0, 0) == {};
    assert Legal(max, k, []) && After(max, []) == Filled(0, 0);
  }

  lemma {:induction false} FilledReachable(max: nat, k: nat, over: nat, n: nat)
    requires max >= 1 && k >= 1 && n <= max
    ensures Reachable(max, k, Filled(over, n))
    decreases over, n
  {
    hide Reachable, Next, Enabled, Filled;
    if n > 0 {
      FilledReachable(max, k, over, n - 1);
      FilledNext(max, k, over, n - 1);
    } else if over > 0 {
      FilledReachable(max, k, over - 1, 1);
      EndsOnce(max, k, over - 1);
      ReachableNext(max, k, Filled(over - 1, 1), Deliver(Executed(over - 1)));
    } else {
      EmptyReachable(max, k);
    }
  }

  /** `n` callers past the check. */
  function Callers(n: nat): map<Caller, Phase> {
    map c | c in UpTo(n) :: Admitted
  }

  /** One place left, and `n` callers past the check for it. */
  function Waiting(max: nat, over: nat, n: nat): System
    requires max >= 1
  {
    Filled(over, max - 1).(inside := Callers(n))
  }

  lemma {:induction false} AllAdmitted(n: nat)
    ensures |Callers(n)| == n && n !in Callers(n) && Callers(n)[n := Admitted] == Callers(n + 1)
  {
    assert Callers(n).Keys == UpTo(n);
    assert |Callers(n)| == |Callers(n).Keys|;
    assert UpTo(n + 1) == UpTo(n) + {n};
  }

  lemma WaitingOnce(max: nat, k: nat, over: nat, n: nat)
    requires max >= 1 && n < k
    ensures Enabled(k, Waiting(max, over, n), Check(n))
    ensures Next(max, Waiting(max, over, n), Check(n)) == Waiting(max, over, n + 1)
  {
    hide Stages, RunningSet, Between;
    RunningCount(0, over, max - 1);
    AllAdmitted(n);
    hide UpTo, Callers;
  }

  lemma {:induction false} WaitingReachable(max: nat, k: nat, over: nat, n: nat)
    requires max >= 1 && k >= 1 && n <= k
    ensures Reachable(max, k, Waiting(max, over, n))
  {
    if n == 0 {
      FilledReachable(max, k, over, max - 1);
      assert Waiting(max, over, 0) == Filled(over, max - 1);
    } else {
      hide Reachable, Next, Enabled, Waiting;
      WaitingReachable(max, k, over, n - 1);
      WaitingOnce(max, k, over, n - 1);
      ReachableNext(max, k, Waiting(max, over, n - 1), Check(n - 1));
    }
  }

  /** Of `k` callers past the check, the first `n` are also past the ADDED event. */
  function Phases(first: JobId, k: nat, n: nat): map<Caller, Phase> {
    map c | c in UpTo(k) :: if c < n then Dispatched(first + c) else Admitted
  }

  /** `base` jobs pending before, and `n` more just dispatched. */
  function Rushing(over: nat, base: nat, k: nat, n: nat): System {
    System(Stages(0, over, base + n), Between(over, over + base), Phases(over + base, k, n), UpTo(over))
  }

  lemma OneMore(first: JobId, k: nat, n: nat)
    requires n < k
    ensures Phases(first, k, n)[n := Dispatched(first + n)] == Phases(first, k, n + 1)
    ensures n in Phases(first, k, n) && Phases(first, k, n)[n] == Admitted
  {
    hide UpTo;
  }

  lemma RushingOnce(max: nat, over: nat, base: nat, k: nat, n: nat)
    requires n < k
    ensures Enabled(k, Rushing(over, base, k, n), Dispatch(n, over + base + n))
    ensures Next(max, Rushing(over, base, k, n), Dispatch(n, over + base + n)) == Rushing(over, base, k, n + 1)
  {
    hide UpTo, Phases, Stages, Between;
    OneMore(over + base, k, n);
    PendingMore(over, base + n);
    assert over + (base + n) == over + base + n && base + n + 1 == base + (n + 1);
  }

  lemma RushingStart(max: nat, over: nat, k: nat)
    requires max >= 1
    ensures Rushing(over, max - 1, k, 0) == Waiting(max, over, k)
  {
    hide UpTo, Stages, Between;
    assert Phases(over + (max - 1), k, 0) == Waiting(max, over, k).inside;
  }

  lemma {:induction false} RushingReachable(max: nat, over: nat, base: nat, k: nat, n: nat)
    requires max == base + 1 && k >= 1 && n <= k
    ensures Reachable(max, k, Rushing(over, base, k, n))
  {
    hide Reachable, Next, Enabled, Rushing, Waiting;
    if n == 0 {
      WaitingReachable(max, k, over, k);
      RushingStart(max, over, k);
    } else {
      RushingReachable(max, over, base, k, n - 1);
      RushingOnce(max, over, base, k, n - 1);
      ReachableNext(max, k, Rushing(over, base, k, n - 1), Dispatch(n - 1, over + base + (n - 1)));
    }
  }

  /** Then the first `late` of the ended jobs are noticed as submitted. */
  function Resubmitted(over: nat, base: nat, k: nat, late: nat): System {
    Rushing(over, base, k, k).(records := Stages(late, over, base + k))
  }

  lemma SubmittedOnce(max: nat, over: nat, base: nat, k: nat, late: nat)
    requires late < over
    ensures Enabled(k, Resubmitted(over, base, k, late), Deliver(Submitted(late)))
    ensures Next(max, Resubmitted(over, base, k, late), Deliver(Submitted(late))) == Resubmitted(over, base, k, late + 1)
  {
    hide UpTo, Between, Phases, Stages;
    StagesAre(late, over, base + k);
    StagesAre(late + 1, over, base + k);
    var records := Stages(late, over, base + k);
    assert late in records && records[late := SUBMITTED] == Stages(late + 1, over, base + k);
  }

  lemma {:induction false} SubmittedReachable(max: nat, over: nat, base: nat, k: nat, late: nat)
    requires max == base + 1 && k >= 1 && late <= over
    ensures Reachable(max, k, Resubmitted(over, base, k, late))
  {
    hide Reachable, Next, Enabled, Stages, Phases, Between, UpTo;
    if late == 0 {
      RushingReachable(max, over, base, k, k);
    } else {
      hide Resubmitted;
      SubmittedReachable(max, over, base, k, late - 1);
      SubmittedOnce(max, over, base, k, late - 1);
      ReachableNext(max, k, Resubmitted(over, base, k, late - 1), Deliver(Submitted(late - 1)));
    }
  }

  /**
   * No smaller bound holds: for every limit, every number `k` of callers at once and every `n`, some reachable
   * state has `n` late jobs and passes the limit by `k - 1 + n`. Serial callers pass it too.
   */
  lemma LateBoundIsAttained(max: nat, k: nat, n: nat)
    requires max >= 1 && k >= 1
    ensures exists s :: Reachable(max, k, s) && |Late(s)| == n && |RunningSet(s.records)| == max + k - 1 + n
  {
    hide Reachable, UpTo, Phases, Stages, Between, RunningSet;
    SubmittedReachable(max, n, max - 1, k, n);
    RunningCount(n, n, max - 1 + k);
    var s := Resubmitted(n, max - 1, k, n);
    assert Late(s) == UpTo(n) && |RunningSet(s.records)| == max + k - 1 + n;
  }

  /** With no job finished, `k` callers that all check first pass the limit by `k - 1`. */
  lemma BoundIsAttained(max: nat, k: nat)
    requires max >= 1 && k >= 1
    ensures exists s :: Reachable(max, k, s) && s.finished == {} && |RunningSet(s.records)| == max + k - 1
  {
    hide Reachable, Phases, Stages, Between, RunningSet;
    RushingReachable(max, 0, max - 1, k, k);
    RunningCount(0, 0, max - 1 + k);
    var s := Rushing(0, max - 1, k, k);
    assert s.finished == {} && |RunningSet(s.records)| == max + k - 1;
  }

  // ----- The order of events matters -----

  function ListenedAll(records: Records, es: seq<Event>): Records
    decreases |es|
  {
    if es == [] then records else ListenedAll(Listened(records, es[0]), es[1..])
  }

  /** The last event of a job, if it has one. */
  function LastEvent(es: seq<Event>, id: JobId): Option<Event> {
    if es == [] then None
    else if es[|es| - 1].id == id then Some(es[|es| - 1])
    else LastEvent(es[..|es| - 1], id)
  }

  lemma {:induction false} ListenedMore(records: Records, es: seq<Event>, e: Event)
    ensures ListenedAll(records, es + [e]) == Listened(ListenedAll(records, es), e)
    decreases |es|
  {
    hide Listened;
    if es == [] {
      assert [e][1..] == [] && [] + [e] == [e];
    } else {
      assert (es + [e])[1..] == es[1..] + [e];
      ListenedMore(Listened(records, es[0]), es[1..], e);
    }
  }

  /**
   * Whatever events come, in whatever order and among whatever other jobs' events: only the last event
   * of a job decides whether it counts as running.
   */
  lemma {:induction false} LastEventDecides(records: Records, es: seq<Event>, id: JobId)
    ensures id in RunningSet(ListenedAll(records, es))
            <==> match LastEvent(es, id)
                 case None => id in RunningSet(records)
                 case Some(e) => e.Added? || e.Submitted?
  {
    if es != [] {
      var n := |es| - 1;
      assert es == es[..n] + [es[n]];
      ListenedMore(records, es[..n], es[n]);
      LastEventDecides(records, es[..n], id);
    }
  }

  /** The jobs that have an event in `es`. */
  function Jobs(es: seq<Event>): set<JobId> {
    set i | 0 <= i < |es| :: es[i].id
  }

  lemma {:induction false} LastEventOf(es: seq<Event>, id: JobId)
    ensures LastEvent(es, id).Some? <==> id in Jobs(es)
  {
    if es != [] {
      var n := |es| - 1;
      LastEventOf(es[..n], id);
      if id in Jobs(es) && es[n].id != id {
        var i :| 0 <= i < |es| && es[i].id == id;
        assert es[..n][i].id == id;
      }
    }
  }

  predicate CountedBy(e: Option<Event>) {
    e.Some? && (e.value.Added? || e.value.Submitted?)
  }

  /** The jobs whose last event is ADDED or SUBMITTED. */
  function StillCounted(es: seq<Event>): set<JobId> {
    set id | id in Jobs(es) && CountedBy(LastEvent(es, id))
  }

  /**
   * Over any events of new jobs, the count is back to what it was exactly if no job's last event is
   * ADDED or SUBMITTED; otherwise it is higher by the number of such jobs, for good.
   */
  lemma {:induction false} LateSubmittedIsCounted(records: Records, es: seq<Event>)
    requires Jobs(es) !! records.Keys
    ensures |RunningSet(ListenedAll(records, es))| == |RunningSet(records)| + |StillCounted(es)|
  {
    forall id
      ensures id in RunningSet(ListenedAll(records, es)) <==> id in RunningSet(records) + StillCounted(es)
      ensures !(id in RunningSet(records) && id in StillCounted(es))
    {
      LastEventDecides(records, es, id);
      LastEventOf(es, id);
    }
    assert RunningSet(ListenedAll(records, es)) == RunningSet(records) + StillCounted(es);
  }

  /** Concretely: one job whose SUBMITTED event is noticed after its EXECUTED event takes a place for good. */
  lemma OneLateJob(id: JobId)
    ensures RunningSet(ListenedAll(map[], [Added(id), Executed(id), Submitted(id)])) == {id}
    ensures RunningSet(ListenedAll(map[], [Added(id), Submitted(id), Executed(id)])) == {}
  {
    var late, right := [Added(id), Executed(id), Submitted(id)], [Added(id), Submitted(id), Executed(id)];
    forall i
      ensures i in RunningSet(ListenedAll(map[], late)) <==> i == id
      ensures i !in RunningSet(ListenedAll(map[], right))
    {
      LastEventDecides(map[], late, i);
      LastEventDecides(map[], right, i);
      LastEventOf(late, i);
      LastEventOf(right, i);
    }
  }
}
