/** Job and storage bills in exact arithmetic, with Python's rounding written out. */
module Charging {
  /** An amount of money in hundredths. */
  type Cents = int

  function Abs(x: real): real {
    if x >= 0.0 then x else -x
  }

  /** To the nearest integer, a tie to the even one. */
  function RoundHalfEven(x: real): (n: int)
    ensures Abs(x - n as real) <= 0.5
    ensures x == x.Floor as real ==> n == x.Floor
    ensures Abs(x - n as real) == 0.5 ==> n % 2 == 0
  {
    var f := x.Floor;
    var d := x - f as real;
    if d < 0.5 || (d == 0.5 && f % 2 == 0) then f else f + 1
  }

  function Amount(c: Cents): real {
    c as real / 100.0
  }

  /** `round(x, 2)`. */
  function Round2(x: real): (c: Cents)
    ensures Abs(x - Amount(c)) <= 0.005
  {
    RoundHalfEven(x * 100.0)
  }

  predicate WholeCents(x: real) {
    x * 100.0 == (x * 100.0).Floor as real
  }

  lemma RoundKeepsCents(c: Cents)
    ensures Round2(Amount(c)) == c
  {
    assert Amount(c) * 100.0 == c as real;
  }

  /** `charge(count, seconds, rate)`. */
  function Charge(count: real, seconds: int, rate: real): Cents {
    Round2(count * seconds as real / 3600.0 * rate)
  }

  /** The product, under a name that keeps it one term in proofs. */
  function Times(x: real, y: real): real {
    x * y
  }

  lemma TimesAdds(x: real, y: real, z: real)
    ensures Times(x + y, z) == Times(x, z) + Times(y, z)
    ensures Times(z, x + y) == Times(z, x) + Times(z, y)
  {
  }

  // ----- A job's bill -----

  datatype Rates = Rates(core: real, gres: map<string, real>, memory: real)

  /** The resources of a job; the gres counts are the items of a dictionary. */
  datatype Usage = Usage(cores: real, gres: seq<(string, real)>, memory: real)

  /** `gres_type.split('/')[0]`. */
  function GresKind(gresType: string): string {
    if gresType == "" || gresType[0] == '/' then "" else [gresType[0]] + GresKind(gresType[1..])
  }

  function GresCount(items: seq<(string, real)>, kind: string): real {
    if items == [] then 0.0
    else GresCount(items[..|items| - 1], kind)
         + if GresKind(items[|items| - 1].0) == kind then items[|items| - 1].1 else 0.0
  }

  function GresRate(rates: Rates, kind: string): real {
    if kind in rates.gres then rates.gres[kind] else 0.0
  }

  datatype Tariff = Tariff(usage: Usage, rates: Rates, kinds: seq<string>, discount: real)

  function GresCosts(t: Tariff, kinds: seq<string>, seconds: int): Cents {
    if kinds == [] then 0
    else
      var kind := kinds[|kinds| - 1];
      GresCosts(t, kinds[..|kinds| - 1], seconds)
      + Charge(GresCount(t.usage.gres, kind), seconds, GresRate(t.rates, kind))
  }

  function TotalCost(t: Tariff, seconds: int): Cents {
    Charge(t.usage.cores, seconds, t.rates.core) + Charge(t.usage.memory, seconds, t.rates.memory)
    + GresCosts(t, t.kinds, seconds)
  }

  function BillingCost(t: Tariff, seconds: int): Cents {
    Round2(Times(Amount(TotalCost(t, seconds)), t.discount))
  }

  /** The cost part of `charge_job`: the rounding of the sum of rounded costs changes nothing. */
  method ComputeBill(t: Tariff, seconds: int) returns (totalCost: Cents, billingCost: Cents)
    ensures totalCost == TotalCost(t, seconds) && billingCost == BillingCost(t, seconds)
  {
    hide Charge, Round2, Amount, Times;
    var cpuCost := Charge(t.usage.cores, seconds, t.rates.core);
    var gresCost := 0;
    for i := 0 to |t.kinds|
      invariant gresCost == GresCosts(t, t.kinds[..i], seconds)
    {
      var gres, count := t.kinds[i], 0.0;
      for j := 0 to |t.usage.gres|
        invariant count == GresCount(t.usage.gres[..j], gres)
      {
        assert t.usage.gres[..j + 1][..j] == t.usage.gres[..j];
        if gres == GresKind(t.usage.gres[j].0) {
          count := count + t.usage.gres[j].1;
        }
      }
      assert t.usage.gres[..|t.usage.gres|] == t.usage.gres;
      assert t.kinds[..i + 1][..i] == t.kinds[..i];
      gresCost := gresCost + Charge(count, seconds, GresRate(t.rates, gres));
    }
    assert t.kinds[..|t.kinds|] == t.kinds;
    var memoryCost := Charge(t.usage.memory, seconds, t.rates.memory);
    RoundKeepsCents(cpuCost + memoryCost + gresCost);
    totalCost := Round2(Amount(cpuCost + memoryCost + gresCost));
    assert totalCost == TotalCost(t, seconds);
    billingCost := Round2(Times(Amount(totalCost), t.discount));
  }

  // ----- How far rounding can lead -----

  /** The exact cost of one hour. */
  function HourlyGres(t: Tariff, kinds: seq<string>): real {
    if kinds == [] then 0.0
    else
      var kind := kinds[|kinds| - 1];
      HourlyGres(t, kinds[..|kinds| - 1]) + Times(GresCount(t.usage.gres, kind), GresRate(t.rates, kind))
  }

  function Hourly(t: Tariff): real {
    Times(t.usage.cores, t.rates.core) + Times(t.usage.memory, t.rates.memory) + HourlyGres(t, t.kinds)
  }

  function Hours(seconds: int): real {
    seconds as real / 3600.0
  }

  function ExactCost(t: Tariff, seconds: int): real {
    Times(Hourly(t), Hours(seconds))
  }

  lemma ChargeError(count: real, seconds: int, rate: real)
    ensures Abs(Amount(Charge(count, seconds, rate)) - Times(Times(count, rate), Hours(seconds))) <= 0.005
  {
    var h := Hours(seconds);
    assert count * seconds as real / 3600.0 == count * h;
    assert count * h * rate == count * rate * h;
  }

  lemma AmountAdds(a: Cents, b: Cents)
    ensures Amount(a + b) == Amount(a) + Amount(b)
  {
  }

  lemma {:induction false} GresError(t: Tariff, kinds: seq<string>, seconds: int)
    ensures Abs(Amount(GresCosts(t, kinds, seconds)) - Times(HourlyGres(t, kinds), Hours(seconds)))
         <= 0.005 * |kinds| as real
  {
    var h := Hours(seconds);
    if kinds == [] {
      assert Times(0.0, h) == 0.0 && Amount(0) == 0.0;
    } else {
      hide Charge, GresCount, GresRate, Times, Amount, Hours;
      var rest, kind := kinds[..|kinds| - 1], kinds[|kinds| - 1];
      var count, rate := GresCount(t.usage.gres, kind), GresRate(t.rates, kind);
      GresError(t, rest, seconds);
      ChargeError(count, seconds, rate);
      AmountAdds(GresCosts(t, rest, seconds), Charge(count, seconds, rate));
      TimesAdds(HourlyGres(t, rest), Times(count, rate), h);
    }
  }

  lemma TotalError(t: Tariff, seconds: int)
    ensures Abs(Amount(TotalCost(t, seconds)) - ExactCost(t, seconds)) <= 0.005 * (2 + |t.kinds|) as real
  {
    hide Charge, GresCosts, HourlyGres, Amount, Times, Hours;
    var cpu, mem, gres :=
      Charge(t.usage.cores, seconds, t.rates.core), Charge(t.usage.memory, seconds, t.rates.memory),
      GresCosts(t, t.kinds, seconds);
    ChargeError(t.usage.cores, seconds, t.rates.core);
    ChargeError(t.usage.memory, seconds, t.rates.memory);
    GresError(t, t.kinds, seconds);
    AmountAdds(cpu, mem);
    AmountAdds(cpu + mem, gres);
    var a, b := Times(t.usage.cores, t.rates.core), Times(t.usage.memory, t.rates.memory);
    TimesAdds(a, b, Hours(seconds));
    TimesAdds(a + b, HourlyGres(t, t.kinds), Hours(seconds));
  }

  function ErrorBound(t: Tariff): real {
    0.005 * (1.0 + Times(t.discount, (2 + |t.kinds|) as real))
  }

  lemma ScaleError(x: real, y: real, bound: real, d: real)
    requires Abs(x - y) <= bound && d >= 0.0
    ensures Abs(x * d - d * y) <= d * bound
  {
    assert x * d - d * y == d * (x - y);
    assert d * (x - y) <= d * bound;
    assert d * (y - x) <= d * bound;
  }

  /** Rounding a discounted amount that is itself off by at most half a cent for each of `n` roundings. */
  lemma DiscountError(x: real, y: real, n: real, d: real)
    requires Abs(x - y) <= 0.005 * n && d >= 0.0
    ensures Abs(Amount(Round2(Times(x, d))) - Times(d, y)) <= 0.005 * (1.0 + Times(d, n))
  {
    ScaleError(x, y, 0.005 * n, d);
    assert d * (0.005 * n) == 0.005 * (d * n);
    hide Round2, Amount;
  }

  /** One bill is off the discounted exact cost by at most half a cent for each rounding it goes through. */
  lemma BillError(t: Tariff, seconds: int)
    requires t.discount >= 0.0
    ensures Abs(Amount(BillingCost(t, seconds)) - Times(t.discount, ExactCost(t, seconds))) <= ErrorBound(t)
  {
    hide TotalCost, ExactCost, Round2, Amount, Times;
    TotalError(t, seconds);
    DiscountError(Amount(TotalCost(t, seconds)), ExactCost(t, seconds), (2 + |t.kinds|) as real, t.discount);
  }

  function Sum(xs: seq<int>): int {
    if xs == [] then 0 else Sum(xs[..|xs| - 1]) + xs[|xs| - 1]
  }

  function Billed(t: Tariff, periods: seq<int>): Cents {
    if periods == [] then 0
    else Billed(t, periods[..|periods| - 1]) + BillingCost(t, periods[|periods| - 1])
  }

  /** Bills for consecutive periods add up to the exact cost of the whole, within one bound for each. */
  lemma {:induction false} IncrementalBillsError(t: Tariff, periods: seq<int>)
    requires t.discount >= 0.0
    ensures Abs(Amount(Billed(t, periods)) - Times(t.discount, ExactCost(t, Sum(periods))))
         <= Times(|periods| as real, ErrorBound(t))
  {
    var e := ErrorBound(t);
    if periods == [] {
      assert ExactCost(t, 0) == Times(t.discount, 0.0) == Times(0.0, e) == Amount(0) == 0.0;
    } else {
      var before, last := periods[..|periods| - 1], periods[|periods| - 1];
      IncrementalBillsError(t, before);
      BillError(t, last);
      AmountAdds(Billed(t, before), BillingCost(t, last));
      ExactAdds(t, Sum(before), last);
      TimesAdds(ExactCost(t, Sum(before)), ExactCost(t, last), t.discount);
      TimesAdds(|before| as real, 1.0, e);
      assert Times(1.0, e) == e && |periods| as real == |before| as real + 1.0;
      hide BillingCost, ErrorBound, ExactCost, Amount, Times;
    }
  }

  lemma ExactAdds(t: Tariff, a: int, b: int)
    ensures ExactCost(t, a + b) == ExactCost(t, a) + ExactCost(t, b)
  {
    assert Hours(a + b) == Hours(a) + Hours(b);
    TimesAdds(Hours(a), Hours(b), Hourly(t));
    hide Hourly, Times, Hours;
  }

  // ----- A storage bill -----

  function StorageCost(count: real, rate: real, discount: real): Cents {
    Round2(Times(Amount(Round2(Times(count, rate))), discount))
  }

  lemma StorageBillError(count: real, rate: real, discount: real)
    requires discount >= 0.0
    ensures Abs(Amount(StorageCost(count, rate, discount)) - Times(discount, Times(count, rate))) <= 0.005 * (1.0 + discount)
  {
    assert Times(discount, 1.0) == discount;
    hide Times, Round2, Amount;
    DiscountError(Amount(Round2(Times(count, rate))), Times(count, rate), 1.0, discount);
  }

  // ----- Rates by queue -----

  datatype QueuePolicy = QueuePolicy(lastOperation: int, queues: set<string>, rates: Rates)

  /** The policies come latest first; the group's own rates apply if none lists the queue. */
  method GetChargeRate(policies: seq<QueuePolicy>, queue: string, groupRates: Rates) returns (rates: Rates)
    requires forall i, j :: 0 <= i < j < |policies| ==> policies[i].lastOperation >= policies[j].lastOperation
    ensures (forall i :: 0 <= i < |policies| ==> queue !in policies[i].queues) ==> rates == groupRates
    ensures (exists i :: 0 <= i < |policies| && queue in policies[i].queues) ==>
              exists i :: 0 <= i < |policies| && queue in policies[i].queues && rates == policies[i].rates
                          && forall j :: 0 <= j < |policies| && queue in policies[j].queues ==>
                               policies[j].lastOperation <= policies[i].lastOperation
  {
    for k := 0 to |policies|
      invariant forall i :: 0 <= i < k ==> queue !in policies[i].queues
    {
      if queue in policies[k].queues {
        return policies[k].rates;
      }
    }
    return groupRates;
  }

  /** A gres type counts for a kind exactly if it is the kind or the kind, a slash and more. */
  lemma {:induction false} GresKindIs(gresType: string, kind: string)
    requires '/' !in kind
    ensures GresKind(gresType) == kind <==> gresType == kind || kind + "/" <= gresType
  {
    if gresType != "" && gresType[0] != '/' {
      if kind != "" {
        GresKindIs(gresType[1..], kind[1..]);
        assert kind == [kind[0]] + kind[1..] && gresType == [gresType[0]] + gresType[1..];
        assert kind + "/" == [kind[0]] + (kind[1..] + "/");
      } else {
        assert kind + "/" == "/";
      }
    }
  }

  /** The count of a kind: nothing of other types, all of its own. */
  lemma {:induction false} GresCountIs(items: seq<(string, real)>, item: (string, real), kind: string)
    ensures GresCount(items + [item], kind) == GresCount(items, kind) + if GresKind(item.0) == kind then item.1 else 0.0
    ensures GresCount([], kind) == 0.0
  {
    assert (items + [item])[..|items|] == items;
  }

  /** Concretely: 12.5 and 13.5 cents, and one hour and a half of two cores at 0.31. */
  lemma RoundedConcretely()
    ensures Round2(0.125) == 12 && Round2(0.135) == 14 && Charge(2.0, 5400, 0.31) == 93
  {
    assert 0.125 * 100.0 == 12.5 && 0.135 * 100.0 == 13.5;
    assert 12.5.Floor == 12 && 13.5.Floor == 13;
    assert 2.0 * 5400.0 / 3600.0 * 0.31 == 0.93 && 0.93 * 100.0 == 93.0;
  }

  /** A kind without a rate costs nothing. */
  lemma UnratedIsFree(rates: Rates, kind: string, count: real, seconds: int)
    requires kind !in rates.gres
    ensures Charge(count, seconds, GresRate(rates, kind)) == 0
  {
    assert count * seconds as real / 3600.0 * 0.0 == 0.0;
  }
}
