/** The accounting ledger: job and storage charges, deposits, and the balances they keep. */
module Ledger {
  import opened Wrappers
  import opened Charging

  type Group = nat
  type JobId = nat
  type User = string
  type Date = int

  datatype Statement =
    | JobStatement(group: Group, cost: Cents, job: JobId, runtime: int)
    | StorageStatement(group: Group, cost: Cents, user: User, date: Date, path: string)

  /** A deposit row; `charge` tells the rows written for statements from manual ones. */
  datatype Deposit = Deposit(group: Group, credits: real, balance: Cents, charge: bool)

  datatype Record = Record(user: User, date: Date)

  datatype Books = Books(
    balances: map<Group, Cents>,
    deposits: seq<Deposit>,
    statements: seq<Statement>,
    records: seq<Record>)

  // ----- Atomic steps -----

  /** A statement, the new balance of its group, and the deposit row that shows it. */
  function Posted(b: Books, st: Statement): Books
    requires st.group in b.balances
  {
    var balance := Round2(Amount(b.balances[st.group]) - Amount(st.cost));
    Books(b.balances[st.group := balance],
          b.deposits + [Deposit(st.group, -Amount(st.cost), balance, true)],
          b.statements + [st], b.records)
  }

  function TotalRuntime(statements: seq<Statement>, job: JobId): int {
    if statements == [] then 0
    else
      var last := statements[|statements| - 1];
      TotalRuntime(statements[..|statements| - 1], job)
      + if last.JobStatement? && last.job == job then last.runtime else 0
  }

  /** A job to charge: the group of its submitter, its own runtime, and the runtimes the scheduler reports, if any. */
  datatype Job = Job(id: JobId, group: Option<Group>, runtime: int, reported: Option<seq<int>>, tariff: Tariff)

  function EffectiveRuntime(job: Job): int {
    match job.reported
    case None => job.runtime
    case Some(runs) => if Sum(runs) >= job.runtime then Sum(runs) else job.runtime
  }

  function JobCharged(b: Books, job: Job): Books
    requires job.group.Some? ==> job.group.value in b.balances
  {
    var actual := EffectiveRuntime(job) - TotalRuntime(b.statements, job.id);
    if job.group == None || actual < 0 then b
    else Posted(b, JobStatement(job.group.value, BillingCost(job.tariff, actual), job.id, actual))
  }

  function ManuallyDeposited(b: Books, group: Group, credits: real): Books
    requires group in b.balances
  {
    var balance := Round2(Amount(b.balances[group]) + credits);
    b.(balances := b.balances[group := balance],
       deposits := b.deposits + [Deposit(group, credits, balance, false)])
  }

  /** The size of a path in units of its policy's rate. */
  datatype PathUse = PathUse(path: string, count: real, rate: real)

  /** A storage policy of a group: its paths with their sizes, charged at one rate. */
  datatype StoragePolicy = StoragePolicy(rate: real, paths: seq<(string, real)>)

  /** A user to bill for storage; no group means there is no mapping. */
  datatype Client = Client(user: User, group: Option<Group>, discount: real, policies: seq<StoragePolicy>)

  function PolicyUses(policy: StoragePolicy, paths: seq<(string, real)>): (uses: seq<PathUse>)
    ensures |uses| == |paths|
  {
    seq(|paths|, i requires 0 <= i < |paths| => PathUse(paths[i].0, paths[i].1, policy.rate))
  }

  /** Every path of every policy, in the order in which they are charged. */
  function Uses(policies: seq<StoragePolicy>): seq<PathUse> {
    if policies == [] then []
    else
      var last := policies[|policies| - 1];
      Uses(policies[..|policies| - 1]) + PolicyUses(last, last.paths)
  }

  function PathStatement(c: Client, date: Date, use: PathUse): Statement
    requires c.group.Some?
  {
    StorageStatement(c.group.value, StorageCost(use.count, use.rate, c.discount), c.user, date, use.path)
  }

  function PathsPosted(b: Books, c: Client, date: Date, uses: seq<PathUse>): (r: Books)
    requires c.group.Some? && c.group.value in b.balances
    ensures r.balances.Keys == b.balances.Keys && r.records == b.records
  {
    if uses == [] then b
    else Posted(PathsPosted(b, c, date, uses[..|uses| - 1]), PathStatement(c, date, uses[|uses| - 1]))
  }

  /** `_storage_charge`: every path of the user's policies, then the record, in one transaction. */
  function StorageCharged(b: Books, c: Client, date: Date): Books
    requires c.group.Some? ==> c.group.value in b.balances
  {
    if c.group == None then b
    else
      var paid := PathsPosted(b, c, date, Uses(c.policies));
      paid.(records := paid.records + [Record(c.user, date)])
  }

  // ----- Runs of atomic steps -----

  datatype Op =
    | ChargeJob(job: Job)
    | ChargeStorage(client: Client, date: Date)
    | ManualDeposit(to: Group, credits: real)

  predicate Known(balances: map<Group, Cents>, op: Op) {
    match op
    case ChargeJob(job) => job.group.Some? ==> job.group.value in balances
    case ChargeStorage(c, _) => c.group.Some? ==> c.group.value in balances
    case ManualDeposit(g, _) => g in balances
  }

  function Step(b: Books, op: Op): (r: Books)
    requires Known(b.balances, op)
    ensures r.balances.Keys == b.balances.Keys
  {
    match op
    case ChargeJob(job) => JobCharged(b, job)
    case ChargeStorage(c, date) => StorageCharged(b, c, date)
    case ManualDeposit(g, credits) => ManuallyDeposited(b, g, credits)
  }

  predicate AllKnown(balances: map<Group, Cents>, ops: seq<Op>) {
    forall i :: 0 <= i < |ops| ==> Known(balances, ops[i])
  }

  function After(b: Books, ops: seq<Op>): (r: Books)
    requires AllKnown(b.balances, ops)
    ensures r.balances.Keys == b.balances.Keys
  {
    if ops == [] then b else Step(After(b, ops[..|ops| - 1]), ops[|ops| - 1])
  }

  // ----- The balance is the sum of the credits -----

  function Credits(deposits: seq<Deposit>, g: Group, chargesOnly: bool): real {
    if deposits == [] then 0.0
    else
      var last := deposits[|deposits| - 1];
      Credits(deposits[..|deposits| - 1], g, chargesOnly)
      + if last.group == g && (last.charge || !chargesOnly) then last.credits else 0.0
  }

  function Costs(statements: seq<Statement>, g: Group): Cents {
    if statements == [] then 0
    else
      var last := statements[|statements| - 1];
      Costs(statements[..|statements| - 1], g) + if last.group == g then last.cost else 0
  }

  /** The stored balance of a deposit is the sum of its group's credits up to and including it. */
  predicate ShowsRunningSum(opening: map<Group, Cents>, deposits: seq<Deposit>, i: nat)
    requires i < |deposits|
  {
    deposits[i].group in opening
    && Amount(deposits[i].balance)
       == Amount(opening[deposits[i].group]) + Credits(deposits[..i + 1], deposits[i].group, false)
  }

  predicate Consistent(opening: map<Group, Cents>, b: Books) {
    && b.balances.Keys == opening.Keys
    && (forall g :: g in opening ==>
          && Amount(b.balances[g]) == Amount(opening[g]) + Credits(b.deposits, g, false)
          && Credits(b.deposits, g, true) == -Amount(Costs(b.statements, g)))
    && forall i :: 0 <= i < |b.deposits| ==> ShowsRunningSum(opening, b.deposits, i)
  }

  lemma {:induction false} CreditsMore(deposits: seq<Deposit>, d: Deposit, g: Group, chargesOnly: bool)
    ensures Credits(deposits + [d], g, chargesOnly)
         == Credits(deposits, g, chargesOnly) + if d.group == g && (d.charge || !chargesOnly) then d.credits else 0.0
  {
    assert (deposits + [d])[..|deposits|] == deposits;
  }

  lemma {:induction false} CostsMore(statements: seq<Statement>, st: Statement, g: Group)
    ensures Amount(Costs(statements + [st], g))
         == Amount(Costs(statements, g)) + if st.group == g then Amount(st.cost) else 0.0
  {
    assert (statements + [st])[..|statements|] == statements;
  }

  /** A deposit row with the exact new balance keeps the running sums. */
  lemma RowAdded(opening: map<Group, Cents>, b: Books, d: Deposit)
    requires Consistent(opening, b) && d.group in opening
    requires Amount(d.balance) == Amount(b.balances[d.group]) + d.credits
    ensures forall i :: 0 <= i < |b.deposits + [d]| ==> ShowsRunningSum(opening, b.deposits + [d], i)
  {
    var ds := b.deposits + [d];
    forall i | 0 <= i < |ds|
      ensures ShowsRunningSum(opening, ds, i)
    {
      if i < |b.deposits| {
        assert ShowsRunningSum(opening, b.deposits, i) && ds[..i + 1] == b.deposits[..i + 1];
      } else {
        assert ds[..i + 1] == ds;
        CreditsMore(b.deposits, d, d.group, false);
      }
    }
  }

  lemma PostedConsistent(opening: map<Group, Cents>, b: Books, st: Statement)
    requires Consistent(opening, b) && st.group in b.balances
    ensures Consistent(opening, Posted(b, st))
  {
    var old' := b.balances[st.group];
    RoundKeepsCents(old' - st.cost);
    assert Amount(old' - st.cost) == Amount(old') - Amount(st.cost);
    var d := Deposit(st.group, -Amount(st.cost), old' - st.cost, true);
    RowAdded(opening, b, d);
    forall g | g in opening
      ensures Credits(b.deposits + [d], g, false)
           == Credits(b.deposits, g, false) + if g == st.group then -Amount(st.cost) else 0.0
      ensures Credits(b.deposits + [d], g, true) == -Amount(Costs(b.statements + [st], g))
    {
      CreditsMore(b.deposits, d, g, false);
      CreditsMore(b.deposits, d, g, true);
      CostsMore(b.statements, st, g);
    }
    hide Round2, Amount;
  }

  lemma {:induction false} PathsConsistent(opening: map<Group, Cents>, b: Books, c: Client, date: Date, uses: seq<PathUse>)
    requires Consistent(opening, b) && c.group.Some? && c.group.value in b.balances
    ensures Consistent(opening, PathsPosted(b, c, date, uses))
  {
    hide Consistent, Posted;
    if uses != [] {
      PathsConsistent(opening, b, c, date, uses[..|uses| - 1]);
      PostedConsistent(opening, PathsPosted(b, c, date, uses[..|uses| - 1]), PathStatement(c, date, uses[|uses| - 1]));
    }
  }

  /** A manual deposit keeps the books consistent exactly if its amount is a whole number of cents. */
  lemma DepositConsistent(opening: map<Group, Cents>, b: Books, g: Group, credits: real)
    requires Consistent(opening, b) && g in b.balances
    ensures Consistent(opening, ManuallyDeposited(b, g, credits)) <==> WholeCents(credits)
  {
    var r := ManuallyDeposited(b, g, credits);
    var d := r.deposits[|b.deposits|];
    RoundedSum(b.balances[g], credits);
    forall x | x in opening
      ensures Credits(r.deposits, x, false) == Credits(b.deposits, x, false) + if x == g then credits else 0.0
      ensures Credits(r.deposits, x, true) == Credits(b.deposits, x, true)
    {
      CreditsMore(b.deposits, d, x, false);
      CreditsMore(b.deposits, d, x, true);
    }
    if WholeCents(credits) {
      RowAdded(opening, b, d);
    }
    hide Round2, Amount, WholeCents;
  }

  lemma RoundedSum(c: Cents, x: real)
    ensures Amount(Round2(Amount(c) + x)) == Amount(c) + x <==> WholeCents(x)
  {
    var s := (Amount(c) + x) * 100.0;
    assert s == c as real + x * 100.0;
    var n := Round2(Amount(c) + x);
    assert Amount(n) == Amount(c) + x ==> x * 100.0 == (n - c) as real;
    if WholeCents(x) {
      assert s == (c + (x * 100.0).Floor) as real;
    }
  }

  lemma RecordKeepsConsistent(opening: map<Group, Cents>, b: Books, records: seq<Record>)
    requires Consistent(opening, b)
    ensures Consistent(opening, b.(records := records))
  {
  }

  lemma StepConsistent(opening: map<Group, Cents>, b: Books, op: Op)
    requires Consistent(opening, b) && Known(b.balances, op)
    requires op.ManualDeposit? ==> WholeCents(op.credits)
    ensures Consistent(opening, Step(b, op))
  {
    hide Consistent, Posted, PathsPosted, BillingCost, TotalRuntime, EffectiveRuntime, Uses, Round2, WholeCents;
    match op
    case ChargeJob(job) =>
      var actual := EffectiveRuntime(job) - TotalRuntime(b.statements, job.id);
      if job.group.Some? && actual >= 0 {
        PostedConsistent(opening, b, JobStatement(job.group.value, BillingCost(job.tariff, actual), job.id, actual));
      }
    case ChargeStorage(c, date) =>
      if c.group.Some? {
        var paid := PathsPosted(b, c, date, Uses(c.policies));
        PathsConsistent(opening, b, c, date, Uses(c.policies));
        RecordKeepsConsistent(opening, paid, paid.records + [Record(c.user, date)]);
      }
    case ManualDeposit(g, credits) => DepositConsistent(opening, b, g, credits);
  }

  lemma OpeningConsistent(balances: map<Group, Cents>, records: seq<Record>)
    ensures Consistent(balances, Books(balances, [], [], records))
  {
    assert Amount(0) == 0.0;
  }

  /**
   * Every interleaving of charges and whole-cent deposits keeps this: a balance is its opening value plus
   * its credits, the charges' credits are the statements' costs, and every row shows the running sum.
   */
  lemma {:induction false} LedgerConsistent(opening: map<Group, Cents>, b: Books, ops: seq<Op>)
    requires Consistent(opening, b) && AllKnown(b.balances, ops)
    requires forall i :: 0 <= i < |ops| && ops[i].ManualDeposit? ==> WholeCents(ops[i].credits)
    ensures Consistent(opening, After(b, ops))
  {
    hide WholeCents, Step, Consistent;
    if ops != [] {
      LedgerConsistent(opening, b, ops[..|ops| - 1]);
      StepConsistent(opening, After(b, ops[..|ops| - 1]), ops[|ops| - 1]);
    }
  }

  // ----- A deleted deposit -----

  /** The deposit view deletes a row and leaves the balances. */
  function Deleted(b: Books, i: nat): Books
    requires i < |b.deposits|
  {
    b.(deposits := b.deposits[..i] + b.deposits[i + 1..])
  }

  lemma {:induction false} CreditsWithout(ds: seq<Deposit>, i: nat, g: Group, chargesOnly: bool)
    requires i < |ds|
    ensures Credits(ds, g, chargesOnly)
         == Credits(ds[..i] + ds[i + 1..], g, chargesOnly)
            + if ds[i].group == g && (ds[i].charge || !chargesOnly) then ds[i].credits else 0.0
    decreases |ds|
  {
    var n := |ds| - 1;
    if i == n {
      assert ds[..i] + ds[i + 1..] == ds[..n];
    } else {
      var less := ds[..i] + ds[i + 1..];
      assert less[..|less| - 1] == ds[..n][..i] + ds[..n][i + 1..];
      CreditsWithout(ds[..n], i, g, chargesOnly);
    }
  }

  lemma RowDeleted(opening: map<Group, Cents>, b: Books, i: nat, j: nat)
    requires i < |b.deposits| && b.deposits[i].credits == 0.0 && j < |b.deposits| - 1
    requires forall k :: 0 <= k < |b.deposits| ==> ShowsRunningSum(opening, b.deposits, k)
    ensures ShowsRunningSum(opening, Deleted(b, i).deposits, j)
  {
    var ds, less := b.deposits, Deleted(b, i).deposits;
    if j < i {
      assert ShowsRunningSum(opening, ds, j) && less[..j + 1] == ds[..j + 1];
    } else {
      assert ShowsRunningSum(opening, ds, j + 1);
      assert less[..j + 1] == ds[..j + 2][..i] + ds[..j + 2][i + 1..];
      CreditsWithout(ds[..j + 2], i, less[j].group, false);
    }
  }

  /** Deleting a deposit keeps the books consistent exactly if the row was worth nothing. */
  lemma DeleteConsistent(opening: map<Group, Cents>, b: Books, i: nat)
    requires Consistent(opening, b) && i < |b.deposits|
    ensures Consistent(opening, Deleted(b, i)) <==> b.deposits[i].credits == 0.0
  {
    var d := b.deposits[i];
    assert ShowsRunningSum(opening, b.deposits, i);
    forall g | g in opening
      ensures Credits(b.deposits, g, false)
           == Credits(Deleted(b, i).deposits, g, false) + if d.group == g then d.credits else 0.0
      ensures Credits(b.deposits, g, true)
           == Credits(Deleted(b, i).deposits, g, true) + if d.group == g && d.charge then d.credits else 0.0
    {
      CreditsWithout(b.deposits, i, g, false);
      CreditsWithout(b.deposits, i, g, true);
    }
    if d.credits == 0.0 {
      forall j | 0 <= j < |b.deposits| - 1
        ensures ShowsRunningSum(opening, Deleted(b, i).deposits, j)
      {
        RowDeleted(opening, b, i, j);
      }
    }
    hide Amount, Credits, Costs, ShowsRunningSum;
  }

  /** Concretely: one unit of money is deposited, the row is deleted, and the group keeps the money. */
  lemma DeletedDepositStays(g: Group)
    ensures var b := ManuallyDeposited(Books(map[g := 0], [], [], []), g, 1.0);
            && |b.deposits| == 1 && Deleted(b, 0).deposits == [] && Deleted(b, 0).balances[g] == 100
            && !Consistent(map[g := 0], Deleted(b, 0))
  {
    var empty := Books(map[g := 0], [], [], []);
    OneDeposited(g);
    hide Consistent, ManuallyDeposited, WholeCents;
    OpeningConsistent(empty.balances, []);
    DepositConsistent(empty.balances, empty, g, 1.0);
    DeleteConsistent(empty.balances, ManuallyDeposited(empty, g, 1.0), 0);
  }

  lemma OneDeposited(g: Group)
    ensures WholeCents(1.0)
    ensures ManuallyDeposited(Books(map[g := 0], [], [], []), g, 1.0)
         == Books(map[g := 100], [Deposit(g, 1.0, 100, false)], [], [])
  {
    assert 1.0 * 100.0 == 100.0 && (Amount(0) + 1.0) * 100.0 == 100.0;
    assert Round2(Amount(0) + 1.0) == RoundHalfEven(100.0) == 100;
    assert map[g := 0][g := 100] == map[g := 100];
    hide Round2;
  }

  // ----- Incremental runtime billing -----

  /** The largest effective runtime reported for a job whose submitter had a group, and at least zero. */
  function LargestReported(ops: seq<Op>, job: JobId): int {
    if ops == [] then 0
    else
      var before, op := LargestReported(ops[..|ops| - 1], job), ops[|ops| - 1];
      if op.ChargeJob? && op.job.id == job && op.job.group.Some? && EffectiveRuntime(op.job) > before
      then EffectiveRuntime(op.job) else before
  }

  lemma {:induction false} RuntimeMore(statements: seq<Statement>, st: Statement, job: JobId)
    ensures TotalRuntime(statements + [st], job)
         == TotalRuntime(statements, job) + if st.JobStatement? && st.job == job then st.runtime else 0
  {
    assert (statements + [st])[..|statements|] == statements;
  }

  lemma {:induction false} PathsNoRuntime(b: Books, c: Client, date: Date, uses: seq<PathUse>, job: JobId)
    requires c.group.Some? && c.group.value in b.balances
    ensures TotalRuntime(PathsPosted(b, c, date, uses).statements, job) == TotalRuntime(b.statements, job)
  {
    if uses != [] {
      var before := PathsPosted(b, c, date, uses[..|uses| - 1]);
      PathsNoRuntime(b, c, date, uses[..|uses| - 1], job);
      RuntimeMore(before.statements, PathStatement(c, date, uses[|uses| - 1]), job);
    }
  }

  /** The billed runtimes of a job telescope to the largest runtime reported for it, in every interleaving. */
  lemma {:induction false} RuntimeTelescopes(b: Books, ops: seq<Op>, job: JobId)
    requires AllKnown(b.balances, ops) && TotalRuntime(b.statements, job) == 0
    ensures TotalRuntime(After(b, ops).statements, job) == LargestReported(ops, job)
  {
    hide BillingCost, Round2, StorageCost;
    if ops != [] {
      var before, op := After(b, ops[..|ops| - 1]), ops[|ops| - 1];
      RuntimeTelescopes(b, ops[..|ops| - 1], job);
      match op
      case ChargeJob(j) =>
        var actual := EffectiveRuntime(j) - TotalRuntime(before.statements, j.id);
        if j.group.Some? && actual >= 0 {
          RuntimeMore(before.statements,
                      JobStatement(j.group.value, BillingCost(j.tariff, actual), j.id, actual), job);
        }
      case ChargeStorage(c, date) =>
        if c.group.Some? {
          PathsNoRuntime(before, c, date, Uses(c.policies), job);
        }
      case ManualDeposit(_, _) =>
    }
  }

  /** A report that is not above the runtime billed so far adds no runtime, and one below it changes nothing. */
  lemma LowerReportIgnored(b: Books, job: Job)
    requires job.group.Some? ==> job.group.value in b.balances
    ensures EffectiveRuntime(job) < TotalRuntime(b.statements, job.id) ==> JobCharged(b, job) == b
    ensures EffectiveRuntime(job) == TotalRuntime(b.statements, job.id) ==>
              TotalRuntime(JobCharged(b, job).statements, job.id) == TotalRuntime(b.statements, job.id)
  {
    if job.group.Some? && EffectiveRuntime(job) == TotalRuntime(b.statements, job.id) {
      RuntimeMore(b.statements, JobStatement(job.group.value, BillingCost(job.tariff, 0), job.id, 0), job.id);
    }
  }

  // ----- What a job pays in the end -----

  function JobCosts(statements: seq<Statement>, job: JobId): Cents {
    if statements == [] then 0
    else
      var last := statements[|statements| - 1];
      JobCosts(statements[..|statements| - 1], job) + if last.JobStatement? && last.job == job then last.cost else 0
  }

  /** The runtimes of the job's statements, in order. */
  function JobPeriods(statements: seq<Statement>, job: JobId): seq<int> {
    if statements == [] then []
    else
      var last := statements[|statements| - 1];
      JobPeriods(statements[..|statements| - 1], job) + if last.JobStatement? && last.job == job then [last.runtime] else []
  }

  predicate OneTariff(ops: seq<Op>, job: JobId, t: Tariff) {
    forall i :: 0 <= i < |ops| && ops[i].ChargeJob? && ops[i].job.id == job ==> ops[i].job.tariff == t
  }

  /** The job's statements bill its periods at one tariff. */
  predicate BilledAt(statements: seq<Statement>, job: JobId, t: Tariff) {
    && JobCosts(statements, job) == Billed(t, JobPeriods(statements, job))
    && TotalRuntime(statements, job) == Sum(JobPeriods(statements, job))
  }

  lemma BilledMore(statements: seq<Statement>, st: Statement, job: JobId, t: Tariff)
    requires BilledAt(statements, job, t)
    requires st.JobStatement? && st.job == job ==> st.cost == BillingCost(t, st.runtime)
    ensures BilledAt(statements + [st], job, t)
  {
    hide BillingCost;
    assert (statements + [st])[..|statements|] == statements;
    var periods := JobPeriods(statements, job);
    assert periods + [] == periods;
    if st.JobStatement? && st.job == job {
      assert (periods + [st.runtime])[..|periods|] == periods;
    }
  }

  lemma {:induction false} PathsBilled(b: Books, c: Client, date: Date, uses: seq<PathUse>, job: JobId, t: Tariff)
    requires c.group.Some? && c.group.value in b.balances && BilledAt(b.statements, job, t)
    ensures BilledAt(PathsPosted(b, c, date, uses).statements, job, t)
  {
    hide BilledAt;
    if uses != [] {
      var before := PathsPosted(b, c, date, uses[..|uses| - 1]);
      PathsBilled(b, c, date, uses[..|uses| - 1], job, t);
      BilledMore(before.statements, PathStatement(c, date, uses[|uses| - 1]), job, t);
    }
  }

  lemma {:induction false} RunBilled(b: Books, ops: seq<Op>, job: JobId, t: Tariff)
    requires AllKnown(b.balances, ops) && OneTariff(ops, job, t) && BilledAt(b.statements, job, t)
    ensures BilledAt(After(b, ops).statements, job, t)
  {
    hide BillingCost, Round2, StorageCost, BilledAt, TotalRuntime;
    if ops != [] {
      var before, op := After(b, ops[..|ops| - 1]), ops[|ops| - 1];
      RunBilled(b, ops[..|ops| - 1], job, t);
      match op
      case ChargeJob(j) =>
        var actual := EffectiveRuntime(j) - TotalRuntime(before.statements, j.id);
        if j.group.Some? && actual >= 0 {
          BilledMore(before.statements, JobStatement(j.group.value, BillingCost(j.tariff, actual), j.id, actual), job, t);
        }
      case ChargeStorage(c, date) =>
        if c.group.Some? {
          PathsBilled(before, c, date, Uses(c.policies), job, t);
        }
      case ManualDeposit(_, _) =>
    }
  }

  lemma {:induction false} NothingBilled(statements: seq<Statement>, job: JobId)
    requires JobPeriods(statements, job) == []
    ensures JobCosts(statements, job) == 0 && TotalRuntime(statements, job) == 0
  {
    if statements != [] {
      NothingBilled(statements[..|statements| - 1], job);
    }
  }

  /**
   * However often a job is reported and billed, what it pays in all is within one error bound for each of
   * its statements of the exact cost of its largest reported runtime.
   */
  lemma {:induction false} JobPaysExactCost(b: Books, ops: seq<Op>, job: JobId, t: Tariff)
    requires AllKnown(b.balances, ops) && OneTariff(ops, job, t) && t.discount >= 0.0
    requires JobPeriods(b.statements, job) == []
    ensures var statements := After(b, ops).statements;
            Abs(Amount(JobCosts(statements, job)) - Times(t.discount, ExactCost(t, LargestReported(ops, job))))
            <= Times(|JobPeriods(statements, job)| as real, ErrorBound(t))
  {
    hide Amount, Times, ExactCost, ErrorBound, After;
    NothingBilled(b.statements, job);
    assert BilledAt(b.statements, job, t);
    RunBilled(b, ops, job, t);
    RuntimeTelescopes(b, ops, job);
    IncrementalBillsError(t, JobPeriods(After(b, ops).statements, job));
  }

  /** Books that start without deposits and statements are consistent after every run. */
  lemma {:induction false} LedgerFromEmpty(balances: map<Group, Cents>, ops: seq<Op>)
    requires AllKnown(balances, ops)
    requires forall i :: 0 <= i < |ops| && ops[i].ManualDeposit? ==> WholeCents(ops[i].credits)
    ensures Consistent(balances, After(Books(balances, [], [], []), ops))
  {
    OpeningConsistent(balances, []);
    LedgerConsistent(balances, Books(balances, [], [], []), ops);
  }

  /** Concretely: half a cent is deposited, and the balance does not move. */
  lemma HalfCentVanishes(g: Group)
    ensures ManuallyDeposited(Books(map[g := 0], [], [], []), g, 0.005).balances[g] == 0
    ensures !Consistent(map[g := 0], ManuallyDeposited(Books(map[g := 0], [], [], []), g, 0.005))
  {
    var b := Books(map[g := 0], [], [], []);
    OpeningConsistent(b.balances, []);
    assert !WholeCents(0.005) by { assert 0.005 * 100.0 == 0.5; }
    DepositConsistent(b.balances, b, g, 0.005);
    assert (Amount(0) + 0.005) * 100.0 == 0.5;
    assert RoundHalfEven(0.5) == 0;
  }

  // ----- What a report says, and what is billed for it -----

  /** The effective runtime is the larger of the job's own and the sum of the scheduler's runs, if any. */
  lemma EffectiveRuntimeIs(job: Job)
    ensures EffectiveRuntime(job) >= job.runtime
    ensures job.reported == None ==> EffectiveRuntime(job) == job.runtime
    ensures job.reported.Some? ==>
              var total := Sum(job.reported.value);
              EffectiveRuntime(job) >= total && (EffectiveRuntime(job) == total || EffectiveRuntime(job) == job.runtime)
  {
  }

  /** A report on the job whose submitter has a group. */
  predicate Reports(op: Op, job: JobId) {
    op.ChargeJob? && op.job.id == job && op.job.group.Some?
  }

  /** The largest report bounds every own and every scheduler's runtime, and is one of them, or zero. */
  lemma {:induction false} LargestReportedIs(ops: seq<Op>, job: JobId)
    ensures LargestReported(ops, job) >= 0
    ensures forall i :: 0 <= i < |ops| && Reports(ops[i], job) ==>
              ops[i].job.runtime <= LargestReported(ops, job)
              && (ops[i].job.reported.Some? ==> Sum(ops[i].job.reported.value) <= LargestReported(ops, job))
    ensures LargestReported(ops, job) == 0
            || exists i :: 0 <= i < |ops| && Reports(ops[i], job)
                 && (LargestReported(ops, job) == ops[i].job.runtime
                     || (ops[i].job.reported.Some? && LargestReported(ops, job) == Sum(ops[i].job.reported.value)))
  {
    if ops != [] {
      var n := |ops| - 1;
      LargestReportedIs(ops[..n], job);
      hide Sum;
      assert forall i :: 0 <= i < n ==> ops[..n][i] == ops[i];
      if Reports(ops[n], job) {
        EffectiveRuntimeIs(ops[n].job);
      }
      hide LargestReported, EffectiveRuntime;
    }
  }

  /** The increments of the reports that are not below the largest one before. */
  function Increments(ops: seq<Op>, job: JobId): seq<int> {
    if ops == [] then []
    else
      var n := |ops| - 1;
      var before := LargestReported(ops[..n], job);
      Increments(ops[..n], job)
      + if Reports(ops[n], job) && EffectiveRuntime(ops[n].job) >= before then [EffectiveRuntime(ops[n].job) - before] else []
  }

  lemma {:induction false} PeriodsMore(statements: seq<Statement>, st: Statement, job: JobId)
    ensures JobPeriods(statements + [st], job)
         == JobPeriods(statements, job) + if st.JobStatement? && st.job == job then [st.runtime] else []
  {
    assert (statements + [st])[..|statements|] == statements;
  }

  lemma {:induction false} PathsNoPeriods(b: Books, c: Client, date: Date, uses: seq<PathUse>, job: JobId)
    requires c.group.Some? && c.group.value in b.balances
    ensures JobPeriods(PathsPosted(b, c, date, uses).statements, job) == JobPeriods(b.statements, job)
  {
    if uses != [] {
      var before := PathsPosted(b, c, date, uses[..|uses| - 1]);
      PathsNoPeriods(b, c, date, uses[..|uses| - 1], job);
      PeriodsMore(before.statements, PathStatement(c, date, uses[|uses| - 1]), job);
    }
  }

  /**
   * In every interleaving the job has one statement for each report not below the largest before it, a repeated
   * one included, and each bills the increment.
   */
  lemma {:induction false} StatementsAreIncrements(b: Books, ops: seq<Op>, job: JobId)
    requires AllKnown(b.balances, ops) && JobPeriods(b.statements, job) == []
    ensures JobPeriods(After(b, ops).statements, job) == Increments(ops, job)
  {
    hide BillingCost, Round2, StorageCost, JobPeriods, TotalRuntime, LargestReported, EffectiveRuntime;
    if ops != [] {
      var before, op := After(b, ops[..|ops| - 1]), ops[|ops| - 1];
      StatementsAreIncrements(b, ops[..|ops| - 1], job);
      match op
      case ChargeJob(j) =>
        NothingBilled(b.statements, job);
        RuntimeTelescopes(b, ops[..|ops| - 1], job);
        var actual := EffectiveRuntime(j) - TotalRuntime(before.statements, j.id);
        if j.group.Some? && actual >= 0 {
          PeriodsMore(before.statements, JobStatement(j.group.value, BillingCost(j.tariff, actual), j.id, actual), job);
        }
      case ChargeStorage(c, date) =>
        if c.group.Some? {
          PathsNoPeriods(before, c, date, Uses(c.policies), job);
        }
      case ManualDeposit(_, _) =>
    }
  }

  // ----- What a user pays for storage -----

  /** The billed costs of one path of a user's on one date, to one group. */
  function StoragePaid(statements: seq<Statement>, g: Group, user: User, date: Date, path: string): Cents {
    if statements == [] then 0
    else
      var last := statements[|statements| - 1];
      StoragePaid(statements[..|statements| - 1], g, user, date, path)
      + if last.StorageStatement? && last.group == g && last.user == user && last.date == date && last.path == path
        then last.cost else 0
  }

  /** Exactly what the path costs under a policy: its size at the policy's rate, discounted. */
  function PathCost(rate: real, paths: seq<(string, real)>, discount: real, path: string): real {
    if paths == [] then 0.0
    else
      var last := paths[|paths| - 1];
      PathCost(rate, paths[..|paths| - 1], discount, path)
      + if last.0 == path then Times(discount, Times(last.1, rate)) else 0.0
  }

  function PolicyCost(policies: seq<StoragePolicy>, discount: real, path: string): real {
    if policies == [] then 0.0
    else
      var last := policies[|policies| - 1];
      PolicyCost(policies[..|policies| - 1], discount, path) + PathCost(last.rate, last.paths, discount, path)
  }

  /** How often the path is listed. */
  function Listings(uses: seq<PathUse>, path: string): nat {
    if uses == [] then 0 else Listings(uses[..|uses| - 1], path) + if uses[|uses| - 1].path == path then 1 else 0
  }

  function UseCost(uses: seq<PathUse>, discount: real, path: string): real {
    if uses == [] then 0.0
    else
      var last := uses[|uses| - 1];
      UseCost(uses[..|uses| - 1], discount, path)
      + if last.path == path then Times(discount, Times(last.count, last.rate)) else 0.0
  }

  lemma {:induction false} UseCostConcat(a: seq<PathUse>, b: seq<PathUse>, discount: real, path: string)
    ensures UseCost(a + b, discount, path) == UseCost(a, discount, path) + UseCost(b, discount, path)
  {
    hide Times;
    if b == [] {
      assert a + b == a;
    } else {
      assert (a + b)[..|a + b| - 1] == a + b[..|b| - 1];
      UseCostConcat(a, b[..|b| - 1], discount, path);
    }
  }

  lemma {:induction false} UseCostOfPolicy(policy: StoragePolicy, paths: seq<(string, real)>, discount: real, path: string)
    ensures UseCost(PolicyUses(policy, paths), discount, path) == PathCost(policy.rate, paths, discount, path)
  {
    hide Times;
    if paths != [] {
      var n := |paths| - 1;
      assert PolicyUses(policy, paths)[..n] == PolicyUses(policy, paths[..n]);
      UseCostOfPolicy(policy, paths[..n], discount, path);
    }
  }

  lemma {:induction false} UsesCost(policies: seq<StoragePolicy>, discount: real, path: string)
    ensures UseCost(Uses(policies), discount, path) == PolicyCost(policies, discount, path)
  {
    hide PolicyUses, PathCost, UseCost;
    if policies == [] {
      assert UseCost([], discount, path) == 0.0 by { NoUseCost(discount, path); }
    } else {
      var n := |policies| - 1;
      UsesCost(policies[..n], discount, path);
      UseCostConcat(Uses(policies[..n]), PolicyUses(policies[n], policies[n].paths), discount, path);
      UseCostOfPolicy(policies[n], policies[n].paths, discount, path);
    }
  }

  lemma {:induction false} NoUseCost(discount: real, path: string)
    ensures UseCost([], discount, path) == 0.0
  {
  }

  lemma {:induction false} PaidMore(statements: seq<Statement>, st: Statement, g: Group, user: User, date: Date, path: string)
    ensures StoragePaid(statements + [st], g, user, date, path)
         == StoragePaid(statements, g, user, date, path)
            + if st.StorageStatement? && st.group == g && st.user == user && st.date == date && st.path == path
              then st.cost else 0
  {
    assert (statements + [st])[..|statements|] == statements;
  }

  /** What the user pays for the path in a charge of these uses. */
  function PaidFor(b: Books, c: Client, date: Date, uses: seq<PathUse>, path: string): Cents
    requires c.group.Some? && c.group.value in b.balances
  {
    StoragePaid(PathsPosted(b, c, date, uses).statements, c.group.value, c.user, date, path)
    - StoragePaid(b.statements, c.group.value, c.user, date, path)
  }

  lemma PaidForMore(b: Books, c: Client, date: Date, uses: seq<PathUse>, path: string)
    requires c.group.Some? && c.group.value in b.balances && uses != []
    ensures var (before, use) := (uses[..|uses| - 1], uses[|uses| - 1]);
            PaidFor(b, c, date, uses, path)
            == PaidFor(b, c, date, before, path)
               + if use.path == path then StorageCost(use.count, use.rate, c.discount) else 0
  {
    hide StoragePaid, StorageCost;
    var before, use := uses[..|uses| - 1], uses[|uses| - 1];
    PaidMore(PathsPosted(b, c, date, before).statements, PathStatement(c, date, use), c.group.value, c.user, date, path);
  }

  /** Paid is the exact cost, within the rounding bound for each listing of the path. */
  lemma {:induction false} PathsPaid(b: Books, c: Client, date: Date, uses: seq<PathUse>, path: string)
    requires c.group.Some? && c.group.value in b.balances && c.discount >= 0.0
    ensures Abs(Amount(PaidFor(b, c, date, uses, path)) - UseCost(uses, c.discount, path))
         <= Times(Listings(uses, path) as real, 0.005 * (1.0 + c.discount))
  {
    var bound := 0.005 * (1.0 + c.discount);
    if uses == [] {
      assert PaidFor(b, c, date, uses, path) == 0;
      assert Amount(0) == 0.0 && Times(0.0, bound) == 0.0;
    } else {
      hide Amount, Times, StorageCost, PaidFor;
      var before, use := uses[..|uses| - 1], uses[|uses| - 1];
      PathsPaid(b, c, date, before, path);
      PaidForMore(b, c, date, uses, path);
      if use.path == path {
        StorageBillError(use.count, use.rate, c.discount);
        OneListingMore(PaidFor(b, c, date, before, path), StorageCost(use.count, use.rate, c.discount),
                       UseCost(before, c.discount, path), Times(c.discount, Times(use.count, use.rate)),
                       Listings(before, path), bound);
      }
    }
  }

  lemma OneListingMore(paid: Cents, cost: Cents, exact: real, more: real, n: nat, bound: real)
    requires Abs(Amount(paid) - exact) <= Times(n as real, bound) && Abs(Amount(cost) - more) <= bound
    ensures Abs(Amount(paid + cost) - (exact + more)) <= Times((n + 1) as real, bound)
  {
    AmountAdds(paid, cost);
    TimesAdds(n as real, 1.0, bound);
    assert Times(1.0, bound) == bound && (n + 1) as real == n as real + 1.0;
    hide Amount, Times;
  }

  /**
   * A storage charge: for every path, what the user's group pays is the path's size at each policy's rate,
   * discounted, within half a cent and half a discounted cent for each listing of the path.
   */
  lemma {:induction false} StorageChargePays(b: Books, c: Client, date: Date, path: string)
    requires c.group.Some? && c.group.value in b.balances && c.discount >= 0.0
    ensures var (g, u) := (c.group.value, c.user);
            var paid := StoragePaid(StorageCharged(b, c, date).statements, g, u, date, path)
                        - StoragePaid(b.statements, g, u, date, path);
            Abs(Amount(paid) - PolicyCost(c.policies, c.discount, path))
            <= Times(Listings(Uses(c.policies), path) as real, 0.005 * (1.0 + c.discount))
  {
    hide StoragePaid, Times, Amount, UseCost, PolicyCost, PathsPosted, Uses, Listings;
    PathsPaid(b, c, date, Uses(c.policies), path);
    UsesCost(c.policies, c.discount, path);
  }

  /** Nobody else's payments change, nor those for other dates. */
  lemma {:induction false} OthersPaySame(b: Books, c: Client, date: Date, uses: seq<PathUse>,
                                         g: Group, user: User, d: Date, path: string)
    requires c.group.Some? && c.group.value in b.balances && (g != c.group.value || user != c.user || d != date)
    ensures StoragePaid(PathsPosted(b, c, date, uses).statements, g, user, d, path)
         == StoragePaid(b.statements, g, user, d, path)
  {
    hide StorageCost;
    if uses != [] {
      var n := |uses| - 1;
      OthersPaySame(b, c, date, uses[..n], g, user, d, path);
      PaidMore(PathsPosted(b, c, date, uses[..n]).statements, PathStatement(c, date, uses[n]), g, user, d, path);
    }
  }

  function PathStatements(c: Client, date: Date, uses: seq<PathUse>): (r: seq<Statement>)
    requires c.group.Some?
    ensures |r| == |uses|
  {
    seq(|uses|, i requires 0 <= i < |uses| => PathStatement(c, date, uses[i]))
  }

  /** One statement for each path, in the order of the policies and of the paths in them. */
  lemma {:induction false} PostedInOrder(b: Books, c: Client, date: Date, uses: seq<PathUse>)
    requires c.group.Some? && c.group.value in b.balances
    ensures PathsPosted(b, c, date, uses).statements == b.statements + PathStatements(c, date, uses)
  {
    hide StorageCost;
    if uses != [] {
      var n := |uses| - 1;
      PostedInOrder(b, c, date, uses[..n]);
      assert PathStatements(c, date, uses) == PathStatements(c, date, uses[..n]) + [PathStatement(c, date, uses[n])];
    }
  }

  lemma {:induction false} UsesInOrder(policy: StoragePolicy, policies: seq<StoragePolicy>)
    ensures Uses([policy] + policies) == PolicyUses(policy, policy.paths) + Uses(policies)
  {
    hide PolicyUses;
    var all := [policy] + policies;
    if policies == [] {
      assert all[..0] == [] && Uses([]) == [];
      assert all == [policy];
    } else {
      var n := |policies| - 1;
      assert all[..|all| - 1] == [policy] + policies[..n];
      UsesInOrder(policy, policies[..n]);
    }
  }
}
