/** How often storage runs charge a user: one run among other steps, runs one after another, and two at once. */
module StorageRuns {
  import opened Wrappers
  import opened Charging
  import opened Ledger
  import opened Accounts

  // ----- How often a user is charged for a date -----

  function TimesCharged(records: seq<Record>, user: User, date: Date): nat {
    if records == [] then 0
    else TimesCharged(records[..|records| - 1], user, date)
         + if records[|records| - 1] == Record(user, date) then 1 else 0
  }

  ghost predicate NobodyTwice(records: seq<Record>) {
    forall u: User, d: Date :: TimesCharged(records, u, d) <= 1
  }

  function StorageCharges(ops: seq<Op>, user: User, date: Date): nat {
    if ops == [] then 0
    else
      var op := ops[|ops| - 1];
      StorageCharges(ops[..|ops| - 1], user, date)
      + if op.ChargeStorage? && op.client.user == user && op.date == date && op.client.group.Some? then 1 else 0
  }

  function ChargesByOthers(others: seq<seq<Op>>, user: User, date: Date): nat {
    if others == [] then 0
    else ChargesByOthers(others[..|others| - 1], user, date) + StorageCharges(others[|others| - 1], user, date)
  }

  predicate Billable(clients: seq<Client>, user: User) {
    exists i :: 0 <= i < |clients| && clients[i].user == user && clients[i].group.Some?
  }

  predicate DistinctUsers(clients: seq<Client>) {
    forall i, j :: 0 <= i < j < |clients| ==> clients[i].user != clients[j].user
  }

  lemma {:induction false} ChargedCount(records: seq<Record>, user: User, date: Date)
    ensures Charged(records, user, date) <==> TimesCharged(records, user, date) >= 1
  {
    if records != [] {
      var n := |records| - 1;
      ChargedCount(records[..n], user, date);
      assert records == records[..n] + [records[n]];
    }
  }

  lemma {:induction false} PathsKeepRecords(b: Books, c: Client, date: Date, user: User, d: Date)
    requires c.group.Some? ==> c.group.value in b.balances
    ensures TimesCharged(StorageCharged(b, c, date).records, user, d)
         == TimesCharged(b.records, user, d) + if c.group.Some? && c.user == user && date == d then 1 else 0
  {
    assert (b.records + [Record(c.user, date)])[..|b.records|] == b.records;
  }

  lemma {:induction false} RecordsCount(b: Books, ops: seq<Op>, user: User, date: Date)
    requires AllKnown(b.balances, ops)
    ensures TimesCharged(After(b, ops).records, user, date)
         == TimesCharged(b.records, user, date) + StorageCharges(ops, user, date)
  {
    if ops != [] {
      hide StorageCharged;
      var n := |ops| - 1;
      var op, before := ops[n], After(b, ops[..n]);
      RecordsCount(b, ops[..n], user, date);
      if op.ChargeStorage? {
        PathsKeepRecords(before, op.client, op.date, user, date);
      }
    }
  }

  lemma {:induction false} ChargesConcat(xs: seq<Op>, ys: seq<Op>, user: User, date: Date)
    ensures StorageCharges(xs + ys, user, date) == StorageCharges(xs, user, date) + StorageCharges(ys, user, date)
  {
    if ys == [] {
      assert xs + ys == xs;
    } else {
      assert (xs + ys)[..|xs + ys| - 1] == xs + ys[..|ys| - 1];
      ChargesConcat(xs, ys[..|ys| - 1], user, date);
    }
  }

  /** A storage run adds one charge for each billable user not recorded at its start, and none for anybody else. */
  lemma {:induction false} RunCount(recorded: seq<Record>, clients: seq<Client>, date: Date, others: seq<seq<Op>>, user: User, d: Date)
    requires |others| == |clients| && DistinctUsers(clients)
    ensures StorageCharges(RunOps(recorded, clients, date, others), user, d)
         == ChargesByOthers(others, user, d)
            + if d == date && Billable(clients, user) && !Charged(recorded, user, date) then 1 else 0
  {
    if clients != [] {
      var n := |clients| - 1;
      var c := clients[n];
      var before := RunOps(recorded, clients[..n], date, others[..n]);
      var own := if Charged(recorded, c.user, date) then [] else [ChargeStorage(c, date)];
      RunCount(recorded, clients[..n], date, others[..n], user, d);
      ChargesConcat(before, others[n], user, d);
      ChargesConcat(before + others[n], own, user, d);
      assert StorageCharges(own, user, d)
          == if c.user == user && c.group.Some? && d == date && !Charged(recorded, c.user, date) then 1 else 0 by {
        assert [ChargeStorage(c, date)][..0] == [];
      }
      BillableNext(clients, user);
    }
  }

  lemma BillableNext(clients: seq<Client>, user: User)
    requires clients != [] && DistinctUsers(clients)
    ensures var n := |clients| - 1;
            && (Billable(clients, user) <==> Billable(clients[..n], user) || (clients[n].user == user && clients[n].group.Some?))
            && !(Billable(clients[..n], user) && clients[n].user == user)
  {
    var n := |clients| - 1;
    assert forall i :: 0 <= i < n ==> clients[..n][i] == clients[i];
  }

  /** How often each user is charged after a storage run among the steps of other processes. */
  lemma {:induction false} TimesAfterRun(b: Books, clients: seq<Client>, date: Date, others: seq<seq<Op>>, user: User, d: Date)
    requires |others| == |clients| && DistinctUsers(clients)
    requires AllKnown(b.balances, RunOps(b.records, clients, date, others))
    ensures TimesCharged(After(b, RunOps(b.records, clients, date, others)).records, user, d)
         == TimesCharged(b.records, user, d) + ChargesByOthers(others, user, d)
            + if d == date && Billable(clients, user) && !Charged(b.records, user, date) then 1 else 0
  {
    RecordsCount(b, RunOps(b.records, clients, date, others), user, d);
    RunCount(b.records, clients, date, others, user, d);
  }

  /** During the run other processes charge nobody whom it bills, nobody who is recorded, and nobody twice. */
  ghost predicate NoOverlap(records: seq<Record>, clients: seq<Client>, date: Date, others: seq<seq<Op>>) {
    forall u: User, d: Date :: ChargesByOthers(others, u, d) == 0
      || (ChargesByOthers(others, u, d) == 1 && !Charged(records, u, d) && !(d == date && Billable(clients, u)))
  }

  /** A storage run leaves nobody charged twice for a date exactly if no other run overlaps with it. */
  lemma {:induction false} NobodyChargedTwice(b: Books, clients: seq<Client>, date: Date, others: seq<seq<Op>>)
    requires |others| == |clients| && DistinctUsers(clients) && NobodyTwice(b.records)
    requires AllKnown(b.balances, RunOps(b.records, clients, date, others))
    ensures NobodyTwice(After(b, RunOps(b.records, clients, date, others)).records)
            <==> NoOverlap(b.records, clients, date, others)
  {
    var r := After(b, RunOps(b.records, clients, date, others)).records;
    forall u: User, d: Date
      ensures TimesCharged(r, u, d) == TimesCharged(b.records, u, d) + ChargesByOthers(others, u, d)
              + if d == date && Billable(clients, u) && !Charged(b.records, u, date) then 1 else 0
      ensures Charged(b.records, u, d) <==> TimesCharged(b.records, u, d) == 1
    {
      TimesAfterRun(b, clients, date, others, u, d);
      ChargedCount(b.records, u, d);
    }
    hide Charged, Billable, TimesCharged, ChargesByOthers, RunOps, After;
  }

  // ----- Runs one after another -----

  predicate ClientsKnown(balances: map<Group, Cents>, clients: seq<Client>) {
    forall i :: 0 <= i < |clients| && clients[i].group.Some? ==> clients[i].group.value in balances
  }

  predicate NoStorage(ops: seq<Op>) {
    forall i :: 0 <= i < |ops| ==> !ops[i].ChargeStorage?
  }

  /** A storage run that ends after `done` users; `others[i]` comes before user `i`, the last after the run. */
  datatype Night = Night(date: Date, clients: seq<Client>, done: nat, others: seq<seq<Op>>) {
    predicate Valid() {
      done <= |clients| && |others| == done + 1 && DistinctUsers(clients)
    }

    /** The others charge jobs and deposit, but charge no storage. */
    predicate Alone() {
      forall i :: 0 <= i < |others| ==> NoStorage(others[i])
    }

    predicate KnownTo(balances: map<Group, Cents>) {
      ClientsKnown(balances, clients) && forall i :: 0 <= i < |others| ==> AllKnown(balances, others[i])
    }

    /** The run came to a user of that name who has a group. */
    predicate Reached(user: User, d: Date)
      requires Valid()
    {
      date == d && Billable(clients[..done], user)
    }
  }

  function NightOps(recorded: seq<Record>, n: Night): seq<Op>
    requires n.Valid()
  {
    RunOps(recorded, n.clients[..n.done], n.date, n.others[..n.done]) + n.others[n.done]
  }

  predicate ValidNights(balances: map<Group, Cents>, nights: seq<Night>) {
    forall i :: 0 <= i < |nights| ==> nights[i].Valid() && nights[i].KnownTo(balances)
  }

  function AfterNights(b: Books, nights: seq<Night>): (r: Books)
    requires ValidNights(b.balances, nights)
    ensures r.balances.Keys == b.balances.Keys
  {
    if nights == [] then b
    else
      var before, last := AfterNights(b, nights[..|nights| - 1]), nights[|nights| - 1];
      NightKnown(b.balances, before.balances, before.records, last);
      After(before, NightOps(before.records, last))
  }

  lemma KnownConcat(balances: map<Group, Cents>, xs: seq<Op>, ys: seq<Op>)
    requires AllKnown(balances, xs) && AllKnown(balances, ys)
    ensures AllKnown(balances, xs + ys)
  {
    hide Known;
  }

  lemma {:induction false} RunOpsKnown(balances: map<Group, Cents>, recorded: seq<Record>, clients: seq<Client>,
                                       date: Date, others: seq<seq<Op>>)
    requires |others| == |clients| && ClientsKnown(balances, clients)
    requires forall i :: 0 <= i < |others| ==> AllKnown(balances, others[i])
    ensures AllKnown(balances, RunOps(recorded, clients, date, others))
  {
    if clients != [] {
      var n := |clients| - 1;
      var before := RunOps(recorded, clients[..n], date, others[..n]);
      RunOpsKnown(balances, recorded, clients[..n], date, others[..n]);
      KnownConcat(balances, before, others[n]);
      var own := if Charged(recorded, clients[n].user, date) then [] else [ChargeStorage(clients[n], date)];
      assert AllKnown(balances, own);
      KnownConcat(balances, before + others[n], own);
    }
  }

  lemma NightKnown(opening: map<Group, Cents>, balances: map<Group, Cents>, recorded: seq<Record>, n: Night)
    requires n.Valid() && n.KnownTo(opening) && opening.Keys == balances.Keys
    ensures AllKnown(balances, NightOps(recorded, n))
  {
    forall i | 0 <= i < |n.others|
      ensures AllKnown(balances, n.others[i])
    {
      KnownByKeys(opening, balances, n.others[i]);
    }
    KnownClients(opening, balances, n.clients, n.done);
    RunOpsKnown(balances, recorded, n.clients[..n.done], n.date, n.others[..n.done]);
    KnownConcat(balances, RunOps(recorded, n.clients[..n.done], n.date, n.others[..n.done]), n.others[n.done]);
  }

  lemma KnownClients(opening: map<Group, Cents>, balances: map<Group, Cents>, clients: seq<Client>, n: nat)
    requires ClientsKnown(opening, clients) && opening.Keys == balances.Keys && n <= |clients|
    ensures ClientsKnown(balances, clients[..n])
  {
    assert forall g :: g in opening <==> g in balances;
  }

  lemma {:induction false} NoCharges(ops: seq<Op>, user: User, date: Date)
    requires NoStorage(ops)
    ensures StorageCharges(ops, user, date) == 0
  {
    if ops != [] {
      NoCharges(ops[..|ops| - 1], user, date);
    }
  }

  lemma {:induction false} NoneByOthers(others: seq<seq<Op>>, user: User, date: Date)
    requires forall i :: 0 <= i < |others| ==> NoStorage(others[i])
    ensures ChargesByOthers(others, user, date) == 0
  {
    if others != [] {
      NoneByOthers(others[..|others| - 1], user, date);
      NoCharges(others[|others| - 1], user, date);
    }
  }

  /** A run on its own charges whom it reaches, if nobody did before. */
  lemma {:induction false} NightCharges(b: Books, n: Night, user: User, d: Date)
    requires n.Valid() && n.Alone() && AllKnown(b.balances, NightOps(b.records, n))
    ensures TimesCharged(After(b, NightOps(b.records, n)).records, user, d)
         == TimesCharged(b.records, user, d) + if n.Reached(user, d) && TimesCharged(b.records, user, d) == 0 then 1 else 0
  {
    hide RunOps, After, Billable;
    var ops, last := RunOps(b.records, n.clients[..n.done], n.date, n.others[..n.done]), n.others[n.done];
    RecordsCount(b, ops + last, user, d);
    ChargesConcat(ops, last, user, d);
    NoCharges(last, user, d);
    RunCount(b.records, n.clients[..n.done], n.date, n.others[..n.done], user, d);
    NoneByOthers(n.others[..n.done], user, d);
    ChargedCount(b.records, user, d);
  }

  predicate ReachedBy(nights: seq<Night>, user: User, d: Date)
    requires forall i :: 0 <= i < |nights| ==> nights[i].Valid()
  {
    exists i :: 0 <= i < |nights| && nights[i].Reached(user, d)
  }

  /**
   * Over any sequence of runs one after another, complete or cut short, for the same or other dates, with
   * any job charges and deposits in between: a user is charged exactly once for a date if some run for it
   * came to him, and otherwise as often as before.
   */
  lemma {:induction false} RunsChargeOnce(b: Books, nights: seq<Night>, user: User, d: Date)
    requires ValidNights(b.balances, nights) && forall i :: 0 <= i < |nights| ==> nights[i].Alone()
    requires TimesCharged(b.records, user, d) <= 1
    ensures TimesCharged(AfterNights(b, nights).records, user, d)
         == if ReachedBy(nights, user, d) then 1 else TimesCharged(b.records, user, d)
  {
    hide NightOps, Night.Reached, Night.KnownTo;
    if nights != [] {
      var n := |nights| - 1;
      var before, last := AfterNights(b, nights[..n]), nights[n];
      RunsChargeOnce(b, nights[..n], user, d);
      NightKnown(b.balances, before.balances, before.records, last);
      NightCharges(before, last, user, d);
      assert ReachedBy(nights, user, d) <==> ReachedBy(nights[..n], user, d) || last.Reached(user, d) by {
        assert forall i :: 0 <= i < n ==> nights[..n][i] == nights[i];
      }
    }
  }

  /** That nobody is charged twice is an invariant of every sequence of such runs. */
  lemma {:induction false} RunsChargeNobodyTwice(b: Books, nights: seq<Night>)
    requires ValidNights(b.balances, nights) && forall i :: 0 <= i < |nights| ==> nights[i].Alone()
    requires NobodyTwice(b.records)
    ensures NobodyTwice(AfterNights(b, nights).records)
  {
    hide AfterNights, ReachedBy, TimesCharged;
    forall u: User, d: Date
      ensures TimesCharged(AfterNights(b, nights).records, u, d) <= 1
    {
      RunsChargeOnce(b, nights, u, d);
    }
  }

  // ----- Two runs at once, turn by turn -----

  /** A run in progress: what its one lookup of the records found, and the next user to charge. */
  datatype Progress = Progress(date: Date, clients: seq<Client>, looked: Option<seq<Record>>, next: nat)

  datatype Turn = Left | Right | Outside(op: Op)

  datatype Duo = Duo(books: Books, left: Progress, right: Progress)

  function Begun(date: Date, clients: seq<Client>): Progress {
    Progress(date, clients, None, 0)
  }

  /** A run's first turn looks the records up; each later one deals with the next user. */
  function Advance(b: Books, p: Progress): (r: (Books, Progress))
    requires ClientsKnown(b.balances, p.clients)
    ensures r.0.balances.Keys == b.balances.Keys && r.1.clients == p.clients && r.1.date == p.date
  {
    if p.looked == None then (b, p.(looked := Some(b.records)))
    else if p.next >= |p.clients| then (b, p)
    else
      var c := p.clients[p.next];
      (if Charged(p.looked.value, c.user, p.date) then b else Step(b, ChargeStorage(c, p.date)), p.(next := p.next + 1))
  }

  predicate TurnsKnown(balances: map<Group, Cents>, turns: seq<Turn>) {
    forall i :: 0 <= i < |turns| && turns[i].Outside? ==> Known(balances, turns[i].op)
  }

  predicate Ready(b: Books, left: Progress, right: Progress, turns: seq<Turn>) {
    ClientsKnown(b.balances, left.clients) && ClientsKnown(b.balances, right.clients) && TurnsKnown(b.balances, turns)
  }

  function TakeTurn(s: Duo, t: Turn): (r: Duo)
    requires Ready(s.books, s.left, s.right, [t])
    ensures r.books.balances.Keys == s.books.balances.Keys
    ensures r.left.clients == s.left.clients && r.right.clients == s.right.clients
    ensures r.left.date == s.left.date && r.right.date == s.right.date
  {
    match t
    case Left => var (b, p) := Advance(s.books, s.left); Duo(b, p, s.right)
    case Right => var (b, p) := Advance(s.books, s.right); Duo(b, s.left, p)
    case Outside(op) => assert t == [t][0]; s.(books := Step(s.books, op))
  }

  lemma StillReady(b: Books, c: Books, left: Progress, right: Progress, left': Progress, right': Progress,
                   turns: seq<Turn>, some: seq<Turn>)
    requires Ready(b, left, right, turns) && b.balances.Keys == c.balances.Keys
    requires left'.clients == left.clients && right'.clients == right.clients
    requires forall t :: t in some ==> t in turns
    ensures Ready(c, left', right', some)
  {
    assert forall g :: g in b.balances <==> g in c.balances;
    forall i | 0 <= i < |some| && some[i].Outside?
      ensures Known(c.balances, some[i].op)
    {
      assert some[i] in turns;
      var j :| 0 <= j < |turns| && turns[j] == some[i];
      assert Known(b.balances, turns[j].op);
    }
  }

  function Together(b: Books, left: Progress, right: Progress, turns: seq<Turn>): (r: Duo)
    requires Ready(b, left, right, turns)
    ensures r.books.balances.Keys == b.balances.Keys
    ensures r.left.clients == left.clients && r.right.clients == right.clients
    ensures r.left.date == left.date && r.right.date == right.date
  {
    if turns == [] then Duo(b, left, right)
    else
      var n := |turns| - 1;
      StillReady(b, b, left, right, left, right, turns, turns[..n]);
      var before := Together(b, left, right, turns[..n]);
      StillReady(b, before.books, left, right, before.left, before.right, turns, [turns[n]]);
      TakeTurn(before, turns[n])
  }

  function Turns(turns: seq<Turn>, side: Turn): nat {
    if turns == [] then 0 else Turns(turns[..|turns| - 1], side) + if turns[|turns| - 1] == side then 1 else 0
  }

  /** Both runs have looked the records up, and neither has come to its user `i` or `j`. */
  predicate BothBefore(turns: seq<Turn>, i: nat, j: nat) {
    1 <= Turns(turns, Left) <= i + 1 && 1 <= Turns(turns, Right) <= j + 1
  }

  /** At some moment both runs have looked up and neither has come to the user. */
  predicate Overlapping(turns: seq<Turn>, i: nat, j: nat) {
    exists t :: 0 <= t <= |turns| && BothBefore(turns[..t], i, j)
  }

  lemma OverlappingNext(turns: seq<Turn>, i: nat, j: nat)
    requires turns != []
    ensures Overlapping(turns, i, j) <==> Overlapping(turns[..|turns| - 1], i, j) || BothBefore(turns, i, j)
  {
    hide BothBefore;
    var n := |turns| - 1;
    assert turns[..|turns|] == turns;
    if t :| 0 <= t <= |turns| && BothBefore(turns[..t], i, j) {
      if t <= n {
        assert turns[..n][..t] == turns[..t];
      }
    }
    if t :| 0 <= t <= n && BothBefore(turns[..n][..t], i, j) {
      assert turns[..n][..t] == turns[..t];
    }
  }

  predicate ChargesUser(op: Op, user: User, d: Date) {
    op.ChargeStorage? && op.client.user == user && op.date == d && op.client.group.Some?
  }

  lemma {:induction false} StepCount(b: Books, op: Op, user: User, d: Date)
    requires Known(b.balances, op)
    ensures TimesCharged(Step(b, op).records, user, d)
         == TimesCharged(b.records, user, d) + if ChargesUser(op, user, d) then 1 else 0
  {
    if op.ChargeStorage? {
      PathsKeepRecords(b, op.client, op.date, user, d);
    }
  }

  /** A run after `turns` turns, in which the user stands at position `i`. */
  predicate InStep(p: Progress, turns: nat, user: User, i: nat, d: Date) {
    && i < |p.clients| && p.clients[i].user == user && p.clients[i].group.Some? && p.date == d
    && DistinctUsers(p.clients)
    && (p.looked.Some? <==> turns >= 1)
    && p.next == Min(Max(turns - 1, 0), |p.clients|)
  }

  lemma {:induction false} AdvanceCounts(b: Books, p: Progress, turns: nat, user: User, i: nat, d: Date)
    requires ClientsKnown(b.balances, p.clients) && InStep(p, turns, user, i, d)
    ensures var (b', p') := Advance(b, p);
            && InStep(p', turns + 1, user, i, d)
            && (turns == 0 ==> b' == b && p'.looked == Some(b.records))
            && (turns > 0 ==> p'.looked == p.looked)
            && TimesCharged(b'.records, user, d) == TimesCharged(b.records, user, d)
               + if turns == i + 1 && !Charged(p.looked.value, user, d) then 1 else 0
  {
    hide Step, TimesCharged, Charged;
    if turns > 0 && p.next < |p.clients| {
      StepCount(b, ChargeStorage(p.clients[p.next], p.date), user, d);
      assert p.next != i ==> p.clients[p.next].user != user;
    }
  }

  predicate Saw(p: Progress, user: User, d: Date) {
    p.looked.Some? && Charged(p.looked.value, user, d)
  }

  /**
   * Between two runs: each charges the user unless its lookup saw him charged, only the other can have
   * done so before the lookup, and neither saw him exactly if their lookups came before both charges.
   */
  predicate Between(times: nat, l: nat, i: nat, sawL: bool, r: nat, j: nat, sawR: bool, both: bool) {
    && times == (if l >= i + 2 && !sawL then 1 else 0) + (if r >= j + 2 && !sawR then 1 else 0)
    && (sawL ==> r >= j + 2 && !sawR && l >= 1)
    && (sawR ==> l >= i + 2 && !sawL && r >= 1)
    && (both <==> l >= 1 && r >= 1 && !sawL && !sawR)
  }

  /** One turn of the first run keeps this. */
  lemma {:induction false} OneSide(b: Books, p: Progress, l: nat, user: User, i: nat, d: Date, r: nat, j: nat, sawR: bool, both: bool)
    requires ClientsKnown(b.balances, p.clients) && InStep(p, l, user, i, d)
    requires Between(TimesCharged(b.records, user, d), l, i, Saw(p, user, d), r, j, sawR, both)
    ensures var (b', p') := Advance(b, p);
            Between(TimesCharged(b'.records, user, d), l + 1, i, Saw(p', user, d), r, j, sawR,
                    both || (1 <= l + 1 <= i + 1 && 1 <= r <= j + 1))
  {
    hide TimesCharged, Charged, Advance, InStep;
    AdvanceCounts(b, p, l, user, i, d);
    ChargedCount(b.records, user, d);
    assert p.looked.Some? <==> l >= 1 by { LookedWhen(p, l, user, i, d); }
  }

  lemma LookedWhen(p: Progress, l: nat, user: User, i: nat, d: Date)
    requires InStep(p, l, user, i, d)
    ensures p.looked.Some? <==> l >= 1
  {
  }

  /** Both runs in step with their turns, and what lies between them. */
  predicate DuoInStep(s: Duo, l: nat, r: nat, user: User, i: nat, j: nat, d: Date, both: bool) {
    && InStep(s.left, l, user, i, d) && InStep(s.right, r, user, j, d)
    && Between(TimesCharged(s.books.records, user, d), l, i, Saw(s.left, user, d), r, j, Saw(s.right, user, d), both)
  }

  lemma TurnInStep(s: Duo, t: Turn, l: nat, r: nat, user: User, i: nat, j: nat, d: Date, both: bool)
    requires Ready(s.books, s.left, s.right, [t]) && DuoInStep(s, l, r, user, i, j, d, both)
    requires t.Outside? ==> !ChargesUser(t.op, user, d)
    ensures var l' := l + if t == Left then 1 else 0;
            var r' := r + if t == Right then 1 else 0;
            DuoInStep(TakeTurn(s, t), l', r', user, i, j, d, both || (1 <= l' <= i + 1 && 1 <= r' <= j + 1))
  {
    hide TimesCharged, Charged, Advance, InStep, ClientsKnown;
    match t
    case Left =>
      AdvanceCounts(s.books, s.left, l, user, i, d);
      OneSide(s.books, s.left, l, user, i, d, r, j, Saw(s.right, user, d), both);
    case Right =>
      AdvanceCounts(s.books, s.right, r, user, j, d);
      OneSide(s.books, s.right, r, user, j, d, l, i, Saw(s.left, user, d), both);
    case Outside(op) =>
      assert [t][0] == t;
      StepCount(s.books, op, user, d);
  }

  lemma StartInStep(b: Books, d: Date, cl: seq<Client>, cr: seq<Client>, user: User, i: nat, j: nat)
    requires DistinctUsers(cl) && DistinctUsers(cr) && !Charged(b.records, user, d)
    requires i < |cl| && cl[i].user == user && cl[i].group.Some?
    requires j < |cr| && cr[j].user == user && cr[j].group.Some?
    ensures DuoInStep(Duo(b, Begun(d, cl), Begun(d, cr)), 0, 0, user, i, j, d, Overlapping([], i, j))
  {
    ChargedCount(b.records, user, d);
    var none: seq<Turn> := [];
    assert forall t :: 0 <= t <= |none| ==> none[..t] == none;
  }

  lemma {:induction false} TogetherInStep(b: Books, d: Date, cl: seq<Client>, cr: seq<Client>, turns: seq<Turn>,
                                          user: User, i: nat, j: nat)
    requires Ready(b, Begun(d, cl), Begun(d, cr), turns) && DistinctUsers(cl) && DistinctUsers(cr)
    requires i < |cl| && cl[i].user == user && cl[i].group.Some?
    requires j < |cr| && cr[j].user == user && cr[j].group.Some?
    requires !Charged(b.records, user, d)
    requires forall k :: 0 <= k < |turns| && turns[k].Outside? ==> !ChargesUser(turns[k].op, user, d)
    ensures DuoInStep(Together(b, Begun(d, cl), Begun(d, cr), turns), Turns(turns, Left), Turns(turns, Right),
                      user, i, j, d, Overlapping(turns, i, j))
  {
    var left, right := Begun(d, cl), Begun(d, cr);
    if turns == [] {
      StartInStep(b, d, cl, cr, user, i, j);
    } else {
      hide DuoInStep, Overlapping, TakeTurn, Ready, DistinctUsers, Charged, ChargesUser;
      var n := |turns| - 1;
      StillReady(b, b, left, right, left, right, turns, turns[..n]);
      var s := Together(b, left, right, turns[..n]);
      StillReady(b, s.books, left, right, s.left, s.right, turns, [turns[n]]);
      TogetherInStep(b, d, cl, cr, turns[..n], user, i, j);
      OverlappingNext(turns, i, j);
      TurnInStep(s, turns[n], Turns(turns[..n], Left), Turns(turns[..n], Right), user, i, j, d,
                 Overlapping(turns[..n], i, j));
    }
  }

  /**
   * Two runs for one date, interleaved in any way with each other and with other steps, both of which come
   * to a user not charged before: they charge him twice exactly if at some moment both have looked up the
   * records and neither has come to him; otherwise once.
   */
  lemma {:induction false} TwoRunsChargeTwice(b: Books, d: Date, cl: seq<Client>, cr: seq<Client>, turns: seq<Turn>,
                           user: User, i: nat, j: nat)
    requires Ready(b, Begun(d, cl), Begun(d, cr), turns) && DistinctUsers(cl) && DistinctUsers(cr)
    requires i < |cl| && cl[i].user == user && cl[i].group.Some?
    requires j < |cr| && cr[j].user == user && cr[j].group.Some?
    requires !Charged(b.records, user, d)
    requires forall k :: 0 <= k < |turns| && turns[k].Outside? ==> !ChargesUser(turns[k].op, user, d)
    requires Turns(turns, Left) >= i + 2 && Turns(turns, Right) >= j + 2
    ensures TimesCharged(Together(b, Begun(d, cl), Begun(d, cr), turns).books.records, user, d)
         == if Overlapping(turns, i, j) then 2 else 1
  {
    TogetherInStep(b, d, cl, cr, turns, user, i, j);
  }

  // ----- One run, turn by turn -----

  function Outsides(ops: seq<Op>): seq<Turn> {
    seq(|ops|, i requires 0 <= i < |ops| => Outside(ops[i]))
  }

  /** The turns of a run with `others[i]` before its i-th charge. */
  function RunTurns(others: seq<seq<Op>>): seq<Turn> {
    if others == [] then [Left]
    else RunTurns(others[..|others| - 1]) + Outsides(others[|others| - 1]) + [Left]
  }

  lemma {:induction false} ReadyConcat(b: Books, left: Progress, right: Progress, xs: seq<Turn>, ys: seq<Turn>)
    requires Ready(b, left, right, xs + ys)
    ensures Ready(b, left, right, xs)
    ensures var s := Together(b, left, right, xs); Ready(s.books, s.left, s.right, ys)
  {
    StillReady(b, b, left, right, left, right, xs + ys, xs);
    var s := Together(b, left, right, xs);
    StillReady(b, s.books, left, right, s.left, s.right, xs + ys, ys);
  }

  lemma {:induction false} TogetherConcat(b: Books, left: Progress, right: Progress, xs: seq<Turn>, ys: seq<Turn>)
    requires Ready(b, left, right, xs + ys) && Ready(b, left, right, xs)
    requires var s := Together(b, left, right, xs); Ready(s.books, s.left, s.right, ys)
    ensures var s := Together(b, left, right, xs);
            Together(b, left, right, xs + ys) == Together(s.books, s.left, s.right, ys)
  {
    hide Ready, TakeTurn;
    if ys == [] {
      assert xs + ys == xs;
    } else {
      var n := |ys| - 1;
      var s := Together(b, left, right, xs);
      assert (xs + ys)[..|xs| + n] == xs + ys[..n];
      StillReady(b, b, left, right, left, right, xs + ys, xs + ys[..n]);
      StillReady(s.books, s.books, s.left, s.right, s.left, s.right, ys, ys[..n]);
      TogetherConcat(b, left, right, xs, ys[..n]);
    }
  }

  lemma {:induction false} OutsidesRun(b: Books, left: Progress, right: Progress, ops: seq<Op>)
    requires Ready(b, left, right, Outsides(ops)) && AllKnown(b.balances, ops)
    ensures Together(b, left, right, Outsides(ops)) == Duo(After(b, ops), left, right)
  {
    hide Ready, Step;
    if ops != [] {
      var n := |ops| - 1;
      assert Outsides(ops)[..n] == Outsides(ops[..n]);
      StillReady(b, b, left, right, left, right, Outsides(ops), Outsides(ops[..n]));
      OutsidesRun(b, left, right, ops[..n]);
    }
  }

  /** A run whose turns no other run shares is the sequence of steps that `Billing` takes. */
  lemma {:induction false} TurnsAreRun(b: Books, clients: seq<Client>, date: Date, others: seq<seq<Op>>, right: Progress)
    requires |others| <= |clients|
    requires Ready(b, Begun(date, clients), right, RunTurns(others))
    requires AllKnown(b.balances, RunOps(b.records, clients[..|others|], date, others))
    ensures Together(b, Begun(date, clients), right, RunTurns(others))
         == Duo(After(b, RunOps(b.records, clients[..|others|], date, others)),
                Progress(date, clients, Some(b.records), |others|), right)
  {
    var left := Begun(date, clients);
    if others == [] {
      assert [Left][..0] == [];
      assert Together(b, left, right, []) == Duo(b, left, right);
      assert After(b, []) == b;
    } else {
      var n := |others| - 1;
      var before, mid := RunTurns(others[..n]), Outsides(others[n]);
      var ops := RunOps(b.records, clients[..n], date, others[..n]);
      assert clients[..|others|][..n] == clients[..n];
      var own := if Charged(b.records, clients[n].user, date) then [] else [ChargeStorage(clients[n], date)];
      assert RunOps(b.records, clients[..|others|], date, others) == ops + others[n] + own;
      hide RunOps, RunTurns, Ready, Step, Charged, AllKnown;
      AfterConcat(b, ops + others[n], own);
      AfterConcat(b, ops, others[n]);
      assert before + mid + [Left] == before + (mid + [Left]);
      ReadyConcat(b, left, right, before, mid + [Left]);
      TurnsAreRun(b, clients, date, others[..n], right);
      var s := Together(b, left, right, before);
      TogetherConcat(b, left, right, before, mid + [Left]);
      ReadyConcat(s.books, s.left, right, mid, [Left]);
      OutsidesRun(s.books, s.left, right, others[n]);
      TogetherConcat(s.books, s.left, right, mid, [Left]);
      var books := After(s.books, others[n]);
      LastTurn(Duo(books, s.left, right), own);
    }
  }

  lemma {:induction false} LastTurn(s: Duo, own: seq<Op>)
    requires Ready(s.books, s.left, s.right, [Left]) && s.left.looked.Some? && s.left.next < |s.left.clients|
    requires AllKnown(s.books.balances, own)
    requires var c := s.left.clients[s.left.next];
             own == if Charged(s.left.looked.value, c.user, s.left.date) then [] else [ChargeStorage(c, s.left.date)]
    ensures Together(s.books, s.left, s.right, [Left])
         == Duo(After(s.books, own), s.left.(next := s.left.next + 1), s.right)
  {
    hide Step, Charged;
    assert [Left][..0] == [];
    assert Together(s.books, s.left, s.right, []) == s;
    if own != [] {
      assert Known(s.books.balances, own[0]);
      StepIsAfter(s.books, own[0]);
    } else {
      assert After(s.books, []) == s.books;
    }
  }

  lemma {:induction false} RunOfOne(recorded: seq<Record>, c: Client, date: Date, before: seq<Op>)
    ensures RunOps(recorded, [c], date, [before])
         == before + if Charged(recorded, c.user, date) then [] else [ChargeStorage(c, date)]
  {
    hide Charged;
    assert [c][..0] == [] && [before][..0] == [];
    assert RunOps(recorded, [], date, []) == [];
    assert [] + before == before;
  }

  /** Concretely: a second run that starts and ends between the first one's lookup and its only charge. */
  lemma {:induction false} NestedRunChargesTwice(b: Books, c: Client, date: Date)
    requires c.group.Some? && c.group.value in b.balances && !Charged(b.records, c.user, date)
    ensures var inner := RunOps(b.records, [c], date, [[]]);
            var outer := RunOps(b.records, [c], date, [inner]);
            && AllKnown(b.balances, outer) && TimesCharged(After(b, outer).records, c.user, date) == 2
  {
    var op := ChargeStorage(c, date);
    RunOfOne(b.records, c, date, []);
    RunOfOne(b.records, c, date, [op]);
    ChargedCount(b.records, c.user, date);
    assert [op, op] == [op] + [op] && [op][..0] == [];
    assert StorageCharges([op], c.user, date) == 1;
    ChargesConcat([op], [op], c.user, date);
    RecordsCount(b, [op, op], c.user, date);
  }

  // ----- Whom a run reports as billed -----

  /** The users a run reports are those with a group who were not recorded, each once. */
  lemma {:induction false} BilledExactly(recorded: seq<Record>, clients: seq<Client>, date: Date, user: User)
    requires DistinctUsers(clients)
    ensures multiset(BilledUsers(recorded, clients, date))[user]
         == if Billable(clients, user) && !Charged(recorded, user, date) then 1 else 0
  {
    if clients != [] {
      var n := |clients| - 1;
      BilledExactly(recorded, clients[..n], date, user);
      BillableNext(clients, user);
      hide Billable, Charged;
    }
  }
}
