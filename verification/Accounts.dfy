/** The ledger kept in place, and the nightly storage run over its users. */
module Accounts {
  import opened Wrappers
  import opened Charging
  import opened Ledger

  // ----- The ledger in place -----

  class Account {
    var balances: map<Group, Cents>
    var deposits: seq<Deposit>
    var statements: seq<Statement>
    var records: seq<Record>

    function View(): Books
      reads this
    {
      Books(balances, deposits, statements, records)
    }

    constructor (opening: map<Group, Cents>)
      ensures View() == Books(opening, [], [], [])
    {
      balances, deposits, statements, records := opening, [], [], [];
    }

    method Post(st: Statement)
      requires st.group in balances
      modifies this
      ensures View() == Posted(old(View()), st)
      ensures balances.Keys == old(balances.Keys) && records == old(records)
    {
      statements := statements + [st];
      var balance := Round2(Amount(balances[st.group]) - Amount(st.cost));
      balances := balances[st.group := balance];
      deposits := deposits + [Deposit(st.group, -Amount(st.cost), balance, true)];
    }

    method BilledRuntime(job: JobId) returns (total: int)
      ensures total == TotalRuntime(statements, job)
    {
      total := 0;
      for i := 0 to |statements|
        invariant total == TotalRuntime(statements[..i], job)
      {
        assert statements[..i + 1][..i] == statements[..i];
        if statements[i].JobStatement? && statements[i].job == job {
          total := total + statements[i].runtime;
        }
      }
      assert statements[..|statements|] == statements;
    }

    /** Bills the runtime that no earlier statement of the job has billed. */
    method ChargeJob(job: Job)
      requires job.group.Some? ==> job.group.value in balances
      modifies this
      ensures View() == JobCharged(old(View()), job)
    {
      hide Posted, BillingCost, TotalRuntime;
      if job.group == None {
        return;
      }
      var runtime := job.runtime;
      if job.reported.Some? {
        var reported := JobAllRuntime(job.reported.value);
        runtime := if reported >= runtime then reported else runtime;
      }
      var billed := BilledRuntime(job.id);
      var actual := runtime - billed;
      if actual < 0 {
        return;
      }
      var _, cost := ComputeBill(job.tariff, actual);
      Post(JobStatement(job.group.value, cost, job.id, actual));
    }

    /** The paths of one policy, until the database refuses the row numbered `fault`. */
    method ChargePolicy(c: Client, date: Date, policy: StoragePolicy, row: nat, fault: Option<nat>,
                        ghost before: Books, ghost uses: seq<PathUse>) returns (refused: bool)
      requires c.group.Some? && c.group.value in balances && c.group.value in before.balances
      requires View() == PathsPosted(before, c, date, uses)
      modifies this
      ensures records == old(records)
      ensures refused <==> fault.Some? && row <= fault.value < row + |policy.paths|
      ensures !refused ==> View() == PathsPosted(before, c, date, uses + PolicyUses(policy, policy.paths))
    {
      hide Posted, StorageCost, PathsPosted;
      ghost var here := PolicyUses(policy, policy.paths);
      assert uses + here[..0] == uses;
      for j := 0 to |policy.paths|
        invariant c.group.value in balances && records == old(records)
        invariant !(fault.Some? && row <= fault.value < row + j)
        invariant View() == PathsPosted(before, c, date, uses + here[..j])
      {
        if fault == Some(row + j) {
          return true;
        }
        var path, count := policy.paths[j].0, policy.paths[j].1;
        assert uses + here[..j + 1] == uses + here[..j] + [here[j]];
        PathsNext(before, c, date, uses + here[..j], here[j]);
        Post(StorageStatement(c.group.value, StorageCost(count, policy.rate, c.discount), c.user, date, path));
      }
      assert here[..|here|] == here;
      return false;
    }

    /**
     * Charges every path of the user's policies and records the date, or, if the database refuses
     * row number `fault`, rolls everything back.
     */
    method StorageCharge(c: Client, date: Date, fault: Option<nat>) returns (r: Result<bool, string>)
      requires c.group.Some? ==> c.group.value in balances
      modifies this
      ensures r.Err? <==> c.group.Some? && fault.Some? && fault.value <= |Uses(c.policies)|
      ensures r.Err? ==> View() == old(View())
      ensures r.Ok? ==> View() == StorageCharged(old(View()), c, date) && r.value == c.group.Some?
    {
      hide Posted, Uses;
      if c.group == None {
        return Ok(false);
      }
      ghost var before := View();
      var balances', deposits', statements' := balances, deposits, statements;
      var row := 0;
      NoUses(c.policies);
      for i := 0 to |c.policies|
        invariant row == |Uses(c.policies[..i])| && !(fault.Some? && fault.value < row)
        invariant c.group.value in balances && View() == PathsPosted(before, c, date, Uses(c.policies[..i]))
      {
        UsesGrow(c.policies, i + 1);
        var refused := ChargePolicy(c, date, c.policies[i], row, fault, before, Uses(c.policies[..i]));
        if refused {
          balances, deposits, statements := balances', deposits', statements';
          return Err("CreateStorageBillingStatementException");
        }
        row := row + |c.policies[i].paths|;
      }
      assert c.policies[..|c.policies|] == c.policies;
      if fault == Some(row) {
        balances, deposits, statements := balances', deposits', statements';
        return Err("CreateStorageBillingRecordException");
      }
      records := records + [Record(c.user, date)];
      return Ok(true);
    }

    method ManualDeposit(group: Group, credits: real)
      requires group in balances
      modifies this
      ensures View() == ManuallyDeposited(old(View()), group, credits)
    {
      var balance := Round2(Amount(balances[group]) + credits);
      balances := balances[group := balance];
      deposits := deposits + [Deposit(group, credits, balance, false)];
    }

    method Apply(op: Op)
      requires Known(balances, op)
      modifies this
      ensures View() == Step(old(View()), op)
    {
      hide JobCharged, ManuallyDeposited, StorageCharged;
      match op {
        case ChargeJob(job) => ChargeJob(job);
        case ChargeStorage(c, date) => var _ := StorageCharge(c, date, None);
        case ManualDeposit(to, credits) => ManualDeposit(to, credits);
      }
    }

    method ApplyAll(ops: seq<Op>)
      requires AllKnown(balances, ops)
      modifies this
      ensures View() == After(old(View()), ops)
    {
      hide Step;
      ghost var before := View();
      for i := 0 to |ops|
        invariant balances.Keys == before.balances.Keys
        invariant View() == After(before, ops[..i])
      {
        assert ops[..i + 1][..i] == ops[..i];
        assert Known(before.balances, ops[i]);
        Apply(ops[i]);
      }
      assert ops[..|ops|] == ops;
    }

    /**
     * The storage run for one date. The users already recorded are read once, at the start; `others[i]`
     * is what other processes do before the i-th charge. A refused row ends the run at user `done`.
     */
    method Billing(date: Date, clients: seq<Client>, others: seq<seq<Op>>, faults: seq<Option<nat>>)
      returns (billed: seq<User>, done: nat)
      requires |others| == |faults| == |clients|
      requires AllKnown(balances, RunOps(records, clients, date, others))
      modifies this
      ensures done <= |clients| && billed == BilledUsers(old(records), clients[..done], date)
      ensures done == |clients| ==>
                View() == After(old(View()), RunOps(old(records), clients, date, others))
      ensures done < |clients| ==>
                && clients[done].group.Some? && faults[done].Some? && !Charged(old(records), clients[done].user, date)
                && AllKnown(old(balances), RunOps(old(records), clients[..done], date, others[..done]) + others[done])
                && View() == After(old(View()), RunOps(old(records), clients[..done], date, others[..done]) + others[done])
    {
      hide Step, Known, RunOps, StorageCharged, After;
      ghost var before := View();
      var recorded := records;
      billed := [];
      NoOps(before, recorded, clients, date, others);
      for i := 0 to |clients|
        invariant balances.Keys == before.balances.Keys
        invariant AllKnown(before.balances, RunOps(recorded, clients[..i], date, others[..i]))
        invariant View() == After(before, RunOps(recorded, clients[..i], date, others[..i]))
        invariant billed == BilledUsers(recorded, clients[..i], date)
      {
        ghost var ops := RunOps(recorded, clients[..i], date, others[..i]);
        RunOpsNext(before.balances, recorded, clients, date, others, i);
        KnownByKeys(before.balances, balances, others[i]);
        ApplyAll(others[i]);
        AfterConcat(before, ops, others[i]);
        assert clients[..i + 1][..i] == clients[..i];
        assert ops + others[i] + [] == ops + others[i];
        if !Charged(recorded, clients[i].user, date) {
          var op := ChargeStorage(clients[i], date);
          StorageIsKnown(before.balances, ops + others[i], clients[i], date);
          AfterConcat(before, ops + others[i], [op]);
          StepIsAfter(After(before, ops + others[i]), op);
          assert View() == After(before, ops + others[i]);
          assert RunOps(recorded, clients[..i + 1], date, others[..i + 1]) == ops + others[i] + [op];
          StepCharges(View(), clients[i], date);
          var charged := StorageCharge(clients[i], date, faults[i]);
          if charged.Err? {
            return billed, i;
          }
          if charged.value {
            billed := billed + [clients[i].user];
          }
        }
      }
      assert clients[..|clients|] == clients && others[..|clients|] == others;
      done := |clients|;
    }
  }

  method JobAllRuntime(runs: seq<int>) returns (total: int)
    ensures total == Sum(runs)
  {
    total := 0;
    for i := 0 to |runs|
      invariant total == Sum(runs[..i])
    {
      assert runs[..i + 1][..i] == runs[..i];
      total := total + runs[i];
    }
    assert runs[..|runs|] == runs;
  }

  // ----- The run as a sequence of atomic steps -----

  predicate Charged(records: seq<Record>, user: User, date: Date) {
    Record(user, date) in records
  }

  /** The steps of a storage run among those of other processes; the recorded users are looked up in `recorded`. */
  function RunOps(recorded: seq<Record>, clients: seq<Client>, date: Date, others: seq<seq<Op>>): seq<Op>
    requires |others| == |clients|
  {
    if clients == [] then []
    else
      var n := |clients| - 1;
      RunOps(recorded, clients[..n], date, others[..n]) + others[n]
      + if Charged(recorded, clients[n].user, date) then [] else [ChargeStorage(clients[n], date)]
  }

  function BilledUsers(recorded: seq<Record>, clients: seq<Client>, date: Date): seq<User> {
    if clients == [] then []
    else
      var n := |clients| - 1;
      BilledUsers(recorded, clients[..n], date)
      + if Charged(recorded, clients[n].user, date) || clients[n].group == None then [] else [clients[n].user]
  }

  // ----- Runs in parts -----

  lemma {:induction false} PathsNext(b: Books, c: Client, date: Date, uses: seq<PathUse>, use: PathUse)
    requires c.group.Some? && c.group.value in b.balances
    ensures PathsPosted(b, c, date, uses + [use]) == Posted(PathsPosted(b, c, date, uses), PathStatement(c, date, use))
  {
    assert (uses + [use])[..|uses|] == uses;
  }

  lemma NoUses(policies: seq<StoragePolicy>)
    ensures Uses(policies[..0]) == []
  {
  }

  lemma {:induction false} UsesGrow(policies: seq<StoragePolicy>, k: nat)
    requires 0 < k <= |policies|
    ensures Uses(policies[..k]) == Uses(policies[..k - 1]) + PolicyUses(policies[k - 1], policies[k - 1].paths)
    ensures |Uses(policies[..k])| <= |Uses(policies)|
    decreases |policies| - k
  {
    assert policies[..k][..k - 1] == policies[..k - 1];
    if k < |policies| {
      UsesGrow(policies, k + 1);
    } else {
      assert policies[..k] == policies;
    }
  }

  lemma {:induction false} AfterConcat(b: Books, xs: seq<Op>, ys: seq<Op>)
    requires AllKnown(b.balances, xs + ys)
    ensures AllKnown(b.balances, xs) && AllKnown(After(b, xs).balances, ys)
    ensures After(b, xs + ys) == After(After(b, xs), ys)
  {
    hide Step;
    assert forall i :: 0 <= i < |xs| ==> xs[i] == (xs + ys)[i];
    assert forall i :: 0 <= i < |ys| ==> ys[i] == (xs + ys)[|xs| + i];
    if ys == [] {
      assert xs + ys == xs;
    } else {
      var n := |ys| - 1;
      assert (xs + ys)[..|xs| + n] == xs + ys[..n];
      AfterConcat(b, xs, ys[..n]);
    }
  }

  lemma KnownByKeys(opening: map<Group, Cents>, balances: map<Group, Cents>, ops: seq<Op>)
    requires AllKnown(opening, ops) && opening.Keys == balances.Keys
    ensures AllKnown(balances, ops)
  {
    assert forall g :: g in opening <==> g in balances;
  }

  lemma StorageIsKnown(balances: map<Group, Cents>, ops: seq<Op>, c: Client, date: Date)
    requires AllKnown(balances, ops + [ChargeStorage(c, date)])
    ensures c.group.Some? ==> c.group.value in balances
  {
    assert Known(balances, (ops + [ChargeStorage(c, date)])[|ops|]);
  }

  lemma {:induction false} NoOps(b: Books, recorded: seq<Record>, clients: seq<Client>, date: Date, others: seq<seq<Op>>)
    requires |others| == |clients|
    ensures RunOps(recorded, clients[..0], date, others[..0]) == [] && After(b, []) == b
  {
  }

  lemma {:induction false} StepIsAfter(b: Books, op: Op)
    requires Known(b.balances, op)
    ensures After(b, [op]) == Step(b, op)
  {
    assert [op][..0] == [];
    assert After(b, []) == b;
  }

  lemma StepCharges(b: Books, c: Client, date: Date)
    requires c.group.Some? ==> c.group.value in b.balances
    ensures Known(b.balances, ChargeStorage(c, date)) && Step(b, ChargeStorage(c, date)) == StorageCharged(b, c, date)
  {
  }

  /** What the steps of a run up to its user `i` know, the next user's steps know. */
  lemma {:induction false} RunOpsNext(balances: map<Group, Cents>, recorded: seq<Record>, clients: seq<Client>, date: Date,
                   others: seq<seq<Op>>, i: nat)
    requires i < |clients| == |others|
    requires AllKnown(balances, RunOps(recorded, clients, date, others))
    ensures RunOps(recorded, clients[..i + 1], date, others[..i + 1])
         == RunOps(recorded, clients[..i], date, others[..i]) + others[i]
            + if Charged(recorded, clients[i].user, date) then [] else [ChargeStorage(clients[i], date)]
    ensures AllKnown(balances, RunOps(recorded, clients[..i + 1], date, others[..i + 1]))
    ensures AllKnown(balances, RunOps(recorded, clients[..i], date, others[..i]) + others[i])
    ensures AllKnown(balances, others[i])
    decreases |clients| - i
  {
    hide Known;
    assert clients[..i + 1][..i] == clients[..i] && others[..i + 1][..i] == others[..i];
    var now := RunOps(recorded, clients[..i + 1], date, others[..i + 1]);
    if i + 1 < |clients| {
      RunOpsNext(balances, recorded, clients, date, others, i + 1);
      KnownPrefix(balances, now, others[i + 1]);
    } else {
      assert clients[..i + 1] == clients && others[..i + 1] == others;
    }
    var before := RunOps(recorded, clients[..i], date, others[..i]);
    KnownPrefix(balances, before + others[i], now[|before + others[i]|..]);
    KnownPrefix(balances, before, others[i]);
  }

  lemma KnownPrefix(balances: map<Group, Cents>, xs: seq<Op>, ys: seq<Op>)
    requires AllKnown(balances, xs + ys)
    ensures AllKnown(balances, xs) && AllKnown(balances, ys)
  {
    hide Known;
    assert forall i :: 0 <= i < |xs| ==> xs[i] == (xs + ys)[i];
    assert forall i :: 0 <= i < |ys| ==> ys[i] == (xs + ys)[|xs| + i];
  }
}
