/** Rotation of token signing keys: a latest key, a history of superseded ones, and a clock. */
module KeyRotation {
  import opened Wrappers

  type Time = int

  const MINUTE: Time := 60
  const DAY: Time := 24 * 60 * MINUTE

  datatype Key = Key(key: Option<string>, expireTime: Time) {
    predicate IsValid(now: Time) {
      expireTime > now
    }
  }

  /** Neither `None` nor empty. */
  predicate Truthy(k: Option<string>) {
    k.Some? && k.value != ""
  }

  datatype Params = Params(tokenExpireMinute: nat, keyExpireDay: nat) {
    /** How long a superseded key is kept. */
    function Grace(): Time {
      tokenExpireMinute * 2 * MINUTE
    }
  }

  datatype Group = Group(latest: Key, history: seq<Key>)

  // ----- What the operations compute -----

  function Updated(p: Params, g: Group, key: Option<string>, now: Time): Group {
    if g.latest.key == key then
      Group(Key(key, now + p.keyExpireDay * DAY), g.history)
    else
      Group(Key(key, now + p.keyExpireDay * DAY),
            if Truthy(g.latest.key) then g.history + [Key(g.latest.key, now + p.Grace())] else g.history)
  }

  /** `list.remove`: the first equal element goes. */
  function RemoveFirst(h: seq<Key>, k: Key): (r: seq<Key>)
    requires k in h
    ensures |r| == |h| - 1 && multiset(r) == multiset(h) - multiset{k}
  {
    if h[0] == k then
      assert h == [h[0]] + h[1..];
      h[1..]
    else
      assert h == [h[0]] + h[1..];
      [h[0]] + RemoveFirst(h[1..], k)
  }

  /** The loop over the very list it shortens: after a removal the next element is passed over. */
  function Sweep(h: seq<Key>, i: nat, now: Time): seq<Key>
    decreases |h| - i
  {
    if i >= |h| then h
    else if h[i].IsValid(now) then Sweep(h, i + 1, now)
    else Sweep(RemoveFirst(h, h[i]), i + 1, now)
  }

  function UpdatedKeys(p: Params, g: Group, dbKey: Option<string>, now: Time, cleared: Time): Group {
    if Truthy(dbKey) then
      var g' := Updated(p, g, dbKey, now);
      Group(g'.latest, Sweep(g'.history, 0, cleared))
    else g
  }

  // ----- Tokens -----

  /** A token verifies under exactly the key that signed it. */
  datatype Token = Token(signer: string, notBefore: Time, expires: Time)

  datatype Verdict = Payload | DecodeError | OutsideLifetime | NoKey

  function Decode(token: Token, key: Option<string>, now: Time): Verdict {
    if key == None then NoKey
    else if key.value != token.signer then DecodeError
    else if token.notBefore <= now < token.expires then Payload
    else OutsideLifetime
  }

  /** The first verdict among the valid keys that is not `DecodeError`. */
  function ScanKeys(keys: seq<Key>, token: Token, now: Time): Option<Verdict> {
    if keys == [] then None
    else if keys[0].IsValid(now) && Decode(token, keys[0].key, now) != DecodeError then
      Some(Decode(token, keys[0].key, now))
    else ScanKeys(keys[1..], token, now)
  }

  function Verified(p: Params, g: Group, token: Token, now: Time, dbKey: Option<string>): (Verdict, Group) {
    match if Truthy(g.latest.key) then ScanKeys([g.latest] + g.history, token, now) else None
    case Some(v) => (v, g)
    case None =>
      (Decode(token, if Truthy(dbKey) then dbKey else None, now), UpdatedKeys(p, g, dbKey, now, now))
  }

  // ----- The classes -----

  class KeyGroup {
    var latest: Key
    var history: seq<Key>
    const params: Params

    constructor (params: Params, now: Time)
      ensures this.params == params && View() == Group(Key(None, now + 3 * DAY), [])
    {
      this.params := params;
      latest := Key(None, now + 3 * DAY);
      history := [];
    }

    function View(): Group
      reads this
    {
      Group(latest, history)
    }

    method Update(key: Option<string>, now: Time)
      modifies this
      ensures View() == Updated(params, old(View()), key, now)
    {
      if latest.key == key {
        latest := latest.(expireTime := now + params.keyExpireDay * DAY);
      } else {
        if Truthy(latest.key) {
          latest := latest.(expireTime := now + params.tokenExpireMinute * 2 * MINUTE);
          history := history + [latest];
        }
        latest := Key(key, now + params.keyExpireDay * DAY);
      }
    }

    method ClearExpired(now: Time)
      modifies this
      ensures latest == old(latest) && history == Sweep(old(history), 0, now)
    {
      var i := 0;
      while i < |history|
        invariant latest == old(latest)
        invariant Sweep(old(history), 0, now) == Sweep(history, i, now)
        decreases |history| - i
      {
        var key := history[i];
        if !key.IsValid(now) {
          history := RemoveFirst(history, key);
        }
        i := i + 1;
      }
    }
  }

  class SharedSecret {
    const keys: KeyGroup
    var key: Option<string>

    constructor (key: string, keys: KeyGroup)
      ensures this.keys == keys && this.key == Some(key)
    {
      this.keys := keys;
      this.key := Some(key);
    }

    /** `dbKey` is what the key function returns; nothing stands for no function or no key. */
    method UpdateKeys(dbKey: Option<string>, now: Time) returns (r: Option<string>)
      modifies keys
      ensures keys.View() == UpdatedKeys(keys.params, old(keys.View()), dbKey, now, now)
      ensures r == if Truthy(dbKey) then dbKey else None
    {
      if Truthy(dbKey) {
        keys.Update(dbKey, now);
        keys.ClearExpired(now);
        return dbKey;
      }
      return None;
    }

    method VerifyJwt(token: Token, now: Time, dbKey: Option<string>) returns (verdict: Verdict)
      modifies this, keys
      ensures (verdict, keys.View()) == Verified(keys.params, old(keys.View()), token, now, dbKey)
    {
      if Truthy(keys.latest.key) {
        var candidates := [keys.latest] + keys.history;
        assert candidates[0..] == candidates;
        for i := 0 to |candidates|
          invariant keys.View() == old(keys.View())
          invariant ScanKeys(candidates, token, now) == ScanKeys(candidates[i..], token, now)
        {
          assert candidates[i..][1..] == candidates[i + 1..];
          if candidates[i].IsValid(now) {
            key := candidates[i].key;
            verdict := Decode(token, key, now);
            if verdict != DecodeError {
              return;
            }
          }
        }
      }
      key := UpdateKeys(dbKey, now);
      verdict := Decode(token, key, now);
    }

    /** Signs with the latest key, whatever its age; the first call fetches a key. */
    method GenerateJwt(now: Time, expireMinutes: nat, effectMinutes: nat, dbKey: Option<string>)
      returns (token: Option<Token>)
      modifies this, keys
      ensures keys.View() == if old(keys.latest.key) == None
                             then UpdatedKeys(keys.params, old(keys.View()), dbKey, now, now) else old(keys.View())
      ensures token == if keys.latest.key == None then None
                       else Some(Generated(keys.latest.key.value, now, expireMinutes, effectMinutes))
    {
      if keys.latest.key == None {
        var _ := UpdateKeys(dbKey, now);
      }
      key := keys.latest.key;
      return if key == None then None
             else Some(Token(key.value, now - effectMinutes * MINUTE, now + expireMinutes * MINUTE));
    }
  }

  // ----- What the sweep keeps and drops -----

  /** The sweep by position: an expired key goes, and the one after it is not looked at. */
  function Survivors(h: seq<Key>, now: Time): seq<Key> {
    if h == [] then []
    else if h[0].IsValid(now) then [h[0]] + Survivors(h[1..], now)
    else if |h| == 1 then []
    else [h[1]] + Survivors(h[2..], now)
  }

  lemma EndsMoved(a: seq<Key>, b: seq<Key>, x: Key)
    requires a + [x] == [x] + b
    ensures multiset(a) == multiset(b)
  {
    assert multiset(a) == multiset(a + [x]) - multiset{x};
    assert multiset(b) == multiset([x] + b) - multiset{x};
  }

  lemma {:induction false} RemovedAt(h: seq<Key>, i: nat) returns (f: nat)
    requires i < |h|
    ensures f <= i && h[f] == h[i] && RemoveFirst(h, h[i]) == h[..f] + h[f + 1..]
    decreases |h|
  {
    if h[0] == h[i] {
      f := 0;
    } else {
      f := RemovedAt(h[1..], i - 1);
      f := f + 1;
    }
  }

  lemma {:induction false} RemoveFirstSplit(h: seq<Key>, i: nat)
    requires i < |h|
    ensures var r := RemoveFirst(h, h[i]);
            r[i..] == h[i + 1..] && multiset(r[..i]) == multiset(h[..i])
  {
    var f := RemovedAt(h, i);
    hide RemoveFirst;
    CutOut(h, f, i);
    assert h[f..i] + [h[i]] == [h[f]] + h[f + 1..i + 1];
    EndsMoved(h[f..i], h[f + 1..i + 1], h[i]);
    SameHead(h[..f], h[f..i], h[f + 1..i + 1]);
  }

  lemma CutOut(h: seq<Key>, f: nat, i: nat)
    requires f <= i < |h|
    ensures (h[..f] + h[f + 1..])[i..] == h[i + 1..]
    ensures (h[..f] + h[f + 1..])[..i] == h[..f] + h[f + 1..i + 1]
    ensures h[..i] == h[..f] + h[f..i]
  {
  }

  lemma SameHead(a: seq<Key>, b: seq<Key>, c: seq<Key>)
    requires multiset(b) == multiset(c)
    ensures multiset(a + b) == multiset(a + c)
  {
  }

  lemma {:induction false} SweepIsSurvivors(h: seq<Key>, i: nat, now: Time)
    requires i <= |h|
    ensures multiset(Sweep(h, i, now)) == multiset(h[..i]) + multiset(Survivors(h[i..], now))
    decreases |h| - i
  {
    hide RemoveFirst, Survivors;
    if i == |h| {
      assert h[..i] == h && h[i..] == [];
      NoSurvivors(now);
    } else {
      SurvivorsFrom(h, i, now);
      if h[i].IsValid(now) {
        SweepIsSurvivors(h, i + 1, now);
      } else {
        var r := RemoveFirst(h, h[i]);
        RemovalStep(h, i);
        if i < |r| {
          SweepIsSurvivors(r, i + 1, now);
        } else {
          assert r[..i] == r;
        }
      }
    }
  }

  lemma {:induction false} NoSurvivors(now: Time)
    ensures Survivors([], now) == []
  {
  }

  lemma {:induction false} SurvivorsFrom(h: seq<Key>, i: nat, now: Time)
    requires i < |h|
    ensures multiset(h[..i]) + multiset(Survivors(h[i..], now))
         == if h[i].IsValid(now) then multiset(h[..i + 1]) + multiset(Survivors(h[i + 1..], now))
            else if i + 1 == |h| then multiset(h[..i])
            else multiset(h[..i]) + multiset{h[i + 1]} + multiset(Survivors(h[i + 2..], now))
  {
    assert h[i..][1..] == h[i + 1..];
    assert h[..i + 1] == h[..i] + [h[i]];
    if i + 1 < |h| {
      assert h[i..][2..] == h[i + 2..];
    }
  }

  lemma {:induction false} RemovalStep(h: seq<Key>, i: nat)
    requires i < |h|
    ensures var r := RemoveFirst(h, h[i]);
            if i < |r| then multiset(r[..i + 1]) == multiset(h[..i]) + multiset{h[i + 1]} && r[i + 1..] == h[i + 2..]
            else multiset(r[..i]) == multiset(h[..i])
  {
    var r := RemoveFirst(h, h[i]);
    RemoveFirstSplit(h, i);
    if i < |r| {
      assert r[i] == r[i..][0] == h[i + 1];
      assert r[..i + 1] == r[..i] + [r[i]];
      assert r[i + 1..] == r[i..][1..] == h[i + 2..];
    }
  }

  lemma {:induction false} SurvivorsKeepValid(h: seq<Key>, now: Time, k: Key)
    ensures k.IsValid(now) ==> multiset(Survivors(h, now))[k] == multiset(h)[k]
    ensures multiset(Survivors(h, now))[k] <= multiset(h)[k]
    ensures (exists x :: x in h && !x.IsValid(now)) ==> |Survivors(h, now)| < |h|
    ensures |Survivors(h, now)| <= |h|
  {
    if h != [] {
      assert h == [h[0]] + h[1..];
      if h[0].IsValid(now) {
        SurvivorsKeepValid(h[1..], now, k);
      } else if |h| > 1 {
        assert h == [h[0], h[1]] + h[2..];
        SurvivorsKeepValid(h[2..], now, k);
      }
    }
  }

  /** No valid key is dropped, nothing is added, and some expired key goes whenever there is one. */
  lemma {:induction false} SweepKeepsValid(h: seq<Key>, now: Time, k: Key)
    ensures k.IsValid(now) ==> multiset(Sweep(h, 0, now))[k] == multiset(h)[k]
    ensures multiset(Sweep(h, 0, now))[k] <= multiset(h)[k]
    ensures (exists x :: x in h && !x.IsValid(now)) ==> |Sweep(h, 0, now)| < |h|
  {
    SweepIsSurvivors(h, 0, now);
    assert h[..0] == [] && h[0..] == h;
    SurvivorsKeepValid(h, now, k);
    assert |Sweep(h, 0, now)| == |multiset(Sweep(h, 0, now))|;
    assert |Survivors(h, now)| == |multiset(Survivors(h, now))|;
  }

  predicate AdjacentExpired(h: seq<Key>, now: Time) {
    exists i :: 0 <= i < |h| - 1 && !h[i].IsValid(now) && !h[i + 1].IsValid(now)
  }

  predicate AllValid(h: seq<Key>, now: Time) {
    forall k :: k in h ==> k.IsValid(now)
  }

  lemma {:induction false} SurvivorsAllValid(h: seq<Key>, now: Time)
    ensures AllValid(Survivors(h, now), now) <==> !AdjacentExpired(h, now)
  {
    if |h| >= 2 || (|h| == 1 && h[0].IsValid(now)) {
      var n := if h[0].IsValid(now) then 1 else 2;
      var kept, rest := h[n - 1], h[n..];
      SurvivorsAllValid(rest, now);
      assert Survivors(h, now) == [kept] + Survivors(rest, now);
      if i :| 0 <= i < |rest| - 1 && !rest[i].IsValid(now) && !rest[i + 1].IsValid(now) {
        assert !h[n + i].IsValid(now) && !h[n + i + 1].IsValid(now);
      }
      if i :| 0 <= i < |h| - 1 && !h[i].IsValid(now) && !h[i + 1].IsValid(now) {
        if i >= n {
          assert !rest[i - n].IsValid(now) && !rest[i - n + 1].IsValid(now);
        }
      }
      assert kept in Survivors(h, now);
    }
  }

  /** The sweep clears out every expired key exactly when no two of them stand side by side. */
  lemma {:induction false} SweepClearsAll(h: seq<Key>, now: Time)
    ensures AllValid(Sweep(h, 0, now), now) <==> !AdjacentExpired(h, now)
  {
    SweepIsSurvivors(h, 0, now);
    assert h[..0] == [] && h[0..] == h;
    SurvivorsAllValid(h, now);
    var a, b := Sweep(h, 0, now), Survivors(h, now);
    assert forall k :: k in a <==> k in multiset(a);
    assert forall k :: k in b <==> k in multiset(b);
  }

  // ----- Runs of updates -----

  /** One `update_keys`: when it reads the clock to update and to clear, and the key it gets. */
  datatype Rotation = Rotation(at: Time, cleared: Time, dbKey: Option<string>)

  /** The clock never runs backwards, and no reading is later than `now`. */
  predicate Ordered(rs: seq<Rotation>, now: Time) {
    && (forall i :: 0 <= i < |rs| ==> rs[i].at <= rs[i].cleared <= now)
    && (forall i, j :: 0 <= i < j < |rs| ==> rs[i].cleared <= rs[j].at)
  }

  function Run(p: Params, g: Group, rs: seq<Rotation>): Group {
    if rs == [] then g
    else
      var last := rs[|rs| - 1];
      UpdatedKeys(p, Run(p, g, rs[..|rs| - 1]), last.dbKey, last.at, last.cleared)
  }

  lemma {:induction false} HistoryKept(p: Params, g: Group, rs: seq<Rotation>, now: Time, k: Key)
    requires Ordered(rs, now) && k in g.history && k.IsValid(now)
    requires Truthy(g.latest.key)
    ensures k in Run(p, g, rs).history && Truthy(Run(p, g, rs).latest.key)
    decreases |rs|
  {
    if rs != [] {
      var before, last := rs[..|rs| - 1], rs[|rs| - 1];
      HistoryKept(p, g, before, now, k);
      var g' := Updated(p, Run(p, g, before), last.dbKey, last.at);
      assert k in g'.history && k in multiset(g'.history);
      SweepKeepsValid(g'.history, last.cleared, k);
      assert k in Sweep(g'.history, 0, last.cleared) <==> k in multiset(Sweep(g'.history, 0, last.cleared));
    }
  }

  /** A superseded key enters the history with the grace period as its life, and stays for all of it. */
  lemma {:induction false} SupersededKeyStays(p: Params, g: Group, r: Rotation, rs: seq<Rotation>, now: Time)
    requires Ordered([r] + rs, now) && now < r.at + p.Grace()
    requires Truthy(g.latest.key) && Truthy(r.dbKey) && r.dbKey != g.latest.key
    ensures Key(g.latest.key, r.at + p.Grace()) in Run(p, g, [r] + rs).history
    ensures Truthy(Run(p, g, [r] + rs).latest.key)
  {
    var k := Key(g.latest.key, r.at + p.Grace());
    var g' := Updated(p, g, r.dbKey, r.at);
    var g1 := UpdatedKeys(p, g, r.dbKey, r.at, r.cleared);
    assert ([r] + rs)[0] == r;
    assert g'.history[|g'.history| - 1] == k;
    assert k in multiset(g'.history);
    SweepKeepsValid(g'.history, r.cleared, k);
    assert k in multiset(g1.history);
    assert Ordered(rs, now) by {
      assert forall i :: 0 <= i < |rs| ==> rs[i] == ([r] + rs)[i + 1];
    }
    HistoryKept(p, g1, rs, now, k);
    RunJoins(p, g, r, rs);
  }

  lemma {:induction false} RunJoins(p: Params, g: Group, r: Rotation, rs: seq<Rotation>)
    ensures Run(p, g, [r] + rs) == Run(p, UpdatedKeys(p, g, r.dbKey, r.at, r.cleared), rs)
  {
    var all := [r] + rs;
    if rs == [] {
      assert all[..0] == [] && all[|all| - 1] == r;
    } else {
      assert all[..|all| - 1] == [r] + rs[..|rs| - 1];
      RunJoins(p, g, r, rs[..|rs| - 1]);
    }
  }

  lemma {:induction false} ScanFinds(keys: seq<Key>, token: Token, now: Time, k: Key)
    requires k in keys && k.IsValid(now) && k.key == Some(token.signer)
    requires forall x :: x in keys ==> x.key != None
    requires token.notBefore <= now < token.expires
    ensures ScanKeys(keys, token, now) == Some(Payload)
  {
    if !(keys[0].IsValid(now) && Decode(token, keys[0].key, now) != DecodeError) {
      ScanFinds(keys[1..], token, now, k);
    }
  }

  predicate NamedHistory(g: Group) {
    forall x :: x in g.history ==> x.key != None
  }

  lemma {:induction false} HistoryNamed(p: Params, g: Group, rs: seq<Rotation>)
    requires NamedHistory(g)
    ensures NamedHistory(Run(p, g, rs))
  {
    if rs != [] {
      var before, last := rs[..|rs| - 1], rs[|rs| - 1];
      HistoryNamed(p, g, before);
      var h := Updated(p, Run(p, g, before), last.dbKey, last.at).history;
      forall x | x in Sweep(h, 0, last.cleared)
        ensures x in h
      {
        SweepKeepsValid(h, last.cleared, x);
        assert x in multiset(Sweep(h, 0, last.cleared));
        assert x in multiset(h);
      }
    }
  }

  /**
   * A token signed before its key was superseded, with a lifetime of at most the grace period, is
   * accepted at every later moment of its life, however many rotations come in between, and the
   * check does not touch the keys.
   */
  lemma {:induction false} LiveTokenAccepted(
      p: Params, g: Group, r: Rotation, rs: seq<Rotation>, now: Time,
      token: Token, signed: Time, dbKey: Option<string>)
    requires NamedHistory(g) && Truthy(g.latest.key) && Truthy(r.dbKey) && r.dbKey != g.latest.key
    requires Ordered([r] + rs, now)
    requires token.signer == g.latest.key.value && signed <= r.at && token.expires <= signed + p.Grace()
    requires token.notBefore <= now < token.expires
    ensures var g' := Run(p, g, [r] + rs); Verified(p, g', token, now, dbKey) == (Payload, g')
  {
    var g' := Run(p, g, [r] + rs);
    SupersededKeyStays(p, g, r, rs, now);
    HistoryNamed(p, g, [r] + rs);
    ScanFinds([g'.latest] + g'.history, token, now, Key(g.latest.key, r.at + p.Grace()));
  }

  /** The history still holds this key, from an earlier turn as the latest one, and it is valid. */
  predicate StillHeld(g: Group, key: Option<string>, now: Time) {
    exists x :: x in g.history && x.key == key && x.IsValid(now)
  }

  /**
   * A token of the latest key itself is refused exactly if that key has run out unrefreshed, the rotation
   * is only noticed by this very check, and the history holds no valid entry of the same key; the
   * superseded key then answers the next check.
   */
  lemma LatestTokenVerdict(p: Params, g: Group, token: Token, now: Time, dbKey: Option<string>)
    requires Truthy(g.latest.key) && NamedHistory(g) && token.signer == g.latest.key.value
    requires token.notBefore <= now < token.expires && Truthy(dbKey) && p.tokenExpireMinute > 0
    ensures Verified(p, g, token, now, dbKey).0 == Payload
            <==> g.latest.IsValid(now) || StillHeld(g, g.latest.key, now) || dbKey == g.latest.key
    ensures Verified(p, g, token, now, dbKey).0 != Payload ==>
              Verified(p, Verified(p, g, token, now, dbKey).1, token, now, dbKey).0 == Payload
  {
    var all := [g.latest] + g.history;
    if g.latest.IsValid(now) {
      ScanFinds(all, token, now, g.latest);
    } else if StillHeld(g, g.latest.key, now) {
      var x :| x in g.history && x.key == g.latest.key && x.IsValid(now);
      assert x in all;
      ScanFinds(all, token, now, x);
    } else {
      ScanMisses(all, token, now);
      if dbKey != g.latest.key {
        NextCheckAccepts(p, g, token, now, dbKey);
      }
    }
  }

  lemma NextCheckAccepts(p: Params, g: Group, token: Token, now: Time, dbKey: Option<string>)
    requires Truthy(g.latest.key) && NamedHistory(g) && token.signer == g.latest.key.value
    requires token.notBefore <= now < token.expires && Truthy(dbKey) && p.tokenExpireMinute > 0
    requires dbKey != g.latest.key
    ensures Verified(p, UpdatedKeys(p, g, dbKey, now, now), token, now, dbKey).0 == Payload
  {
    var r := Rotation(now, now, dbKey);
    var g' := UpdatedKeys(p, g, dbKey, now, now);
    RunJoins(p, g, r, []);
    assert Run(p, g', []) == g';
    SupersededKeyStays(p, g, r, [], now);
    HistoryNamed(p, g, [r] + []);
    hide UpdatedKeys;
    ScanFinds([g'.latest] + g'.history, token, now, Key(g.latest.key, now + p.Grace()));
  }

  // ----- The latest key and its time -----

  /** The last update that got a key. */
  function LastKeyed(rs: seq<Rotation>): Option<Rotation> {
    if rs == [] then None
    else if Truthy(rs[|rs| - 1].dbKey) then Some(rs[|rs| - 1])
    else LastKeyed(rs[..|rs| - 1])
  }

  /** After every run the latest key is the last one fetched, with the full time from then on, refreshed or new. */
  lemma {:induction false} LatestAfterRun(p: Params, g: Group, rs: seq<Rotation>)
    ensures Run(p, g, rs).latest
         == match LastKeyed(rs)
            case None => g.latest
            case Some(r) => Key(r.dbKey, r.at + p.keyExpireDay * DAY)
  {
    hide Sweep;
    if rs != [] {
      LatestAfterRun(p, g, rs[..|rs| - 1]);
    }
  }

  /**
   * A token of the last fetched key is accepted at every moment of its life until that key's time is up, and
   * the keys stay as they are, whatever the database holds meanwhile.
   */
  lemma {:induction false} CurrentTokenAccepted(p: Params, g: Group, rs: seq<Rotation>, now: Time, token: Token, dbKey: Option<string>)
    requires NamedHistory(g) && LastKeyed(rs).Some?
    requires LastKeyed(rs).value.dbKey == Some(token.signer) && token.signer != ""
    requires token.notBefore <= now < token.expires && now < LastKeyed(rs).value.at + p.keyExpireDay * DAY
    ensures var g' := Run(p, g, rs); Verified(p, g', token, now, dbKey) == (Payload, g')
  {
    hide Run;
    var g' := Run(p, g, rs);
    LatestAfterRun(p, g, rs);
    HistoryNamed(p, g, rs);
    ScanFinds([g'.latest] + g'.history, token, now, g'.latest);
  }

  lemma {:induction false} SweepWithin(h: seq<Key>, now: Time, k: Key)
    requires k in Sweep(h, 0, now)
    ensures k in h
  {
    hide Sweep;
    SweepKeepsValid(h, now, k);
    assert k in multiset(Sweep(h, 0, now));
    assert k in multiset(h);
  }

  /** A key entered the history by the i-th update, which superseded it, with the grace period from then on. */
  predicate EnteredAt(p: Params, g: Group, rs: seq<Rotation>, i: nat, k: Key) {
    i < |rs| && Truthy(k.key) && k.key == Run(p, g, rs[..i]).latest.key && rs[i].dbKey != k.key
    && k.expireTime == rs[i].at + p.Grace()
  }

  /** Nothing else ever enters the history. */
  lemma {:induction false} HistoryOnlySuperseded(p: Params, g: Group, rs: seq<Rotation>, k: Key)
    requires k in Run(p, g, rs).history
    ensures k in g.history || exists i :: 0 <= i < |rs| && EnteredAt(p, g, rs, i, k)
  {
    if rs != [] {
      var n := |rs| - 1;
      var before, last := Run(p, g, rs[..n]), rs[n];
      if Truthy(last.dbKey) {
        SweepWithin(Updated(p, before, last.dbKey, last.at).history, last.cleared, k);
      }
      hide Sweep, Run, Updated;
      if k in before.history {
        HistoryOnlySuperseded(p, g, rs[..n], k);
        if i :| 0 <= i < n && EnteredAt(p, g, rs[..n], i, k) {
          assert rs[..n][..i] == rs[..i];
          assert EnteredAt(p, g, rs, i, k);
        }
      } else {
        assert EnteredAt(p, g, rs, n, k) by { JustSuperseded(p, before, last, k); }
      }
    }
  }

  lemma JustSuperseded(p: Params, g: Group, r: Rotation, k: Key)
    requires k in UpdatedKeys(p, g, r.dbKey, r.at, r.cleared).history && k !in g.history
    ensures Truthy(k.key) && k.key == g.latest.key && r.dbKey != k.key && k.expireTime == r.at + p.Grace()
  {
    hide Sweep;
    if Truthy(r.dbKey) {
      SweepWithin(Updated(p, g, r.dbKey, r.at).history, r.cleared, k);
    }
  }

  /** A valid key of the group signed the token. */
  predicate SignedByHeld(g: Group, token: Token, now: Time) {
    && Truthy(g.latest.key)
    && exists k :: k in [g.latest] + g.history && k.IsValid(now) && k.key == Some(token.signer)
  }

  lemma {:induction false} ScanVerdict(keys: seq<Key>, token: Token, now: Time, k: Key)
    requires k in keys && k.IsValid(now) && k.key == Some(token.signer) && forall x :: x in keys ==> x.key != None
    ensures ScanKeys(keys, token, now) == Some(if token.notBefore <= now < token.expires then Payload else OutsideLifetime)
  {
    if !(keys[0].IsValid(now) && Decode(token, keys[0].key, now) != DecodeError) {
      ScanVerdict(keys[1..], token, now, k);
    }
  }

  /**
   * The verdict on any token: if a valid key of the group signed it, its lifetime alone decides and the keys
   * stay; otherwise the keys are updated, and the fetched key alone decides.
   */
  lemma VerdictExactly(p: Params, g: Group, token: Token, now: Time, dbKey: Option<string>)
    requires NamedHistory(g)
    ensures var alive := if token.notBefore <= now < token.expires then Payload else OutsideLifetime;
            Verified(p, g, token, now, dbKey)
            == if SignedByHeld(g, token, now) then (alive, g)
               else (if !Truthy(dbKey) then NoKey else if dbKey == Some(token.signer) then alive else DecodeError,
                     UpdatedKeys(p, g, dbKey, now, now))
  {
    hide UpdatedKeys;
    var all := [g.latest] + g.history;
    if SignedByHeld(g, token, now) {
      var k :| k in all && k.IsValid(now) && k.key == Some(token.signer);
      ScanVerdict(all, token, now, k);
    } else if Truthy(g.latest.key) {
      ScanMisses(all, token, now);
    }
  }

  /** What `generate_jwt` makes of the latest key. */
  function Generated(key: string, now: Time, expireMinutes: nat, effectMinutes: nat): Token {
    Token(key, now - effectMinutes * MINUTE, now + expireMinutes * MINUTE)
  }

  /**
   * A token generated now, for at most twice the token time, is accepted from now on for its whole life over
   * any run of updates in which its key is superseded at some point; before that, while the key is valid.
   */
  lemma {:induction false} GeneratedTokenLives(p: Params, g: Group, before: seq<Rotation>, r: Rotation, after: seq<Rotation>,
                            made: Time, expireMinutes: nat, effectMinutes: nat, now: Time, dbKey: Option<string>)
    requires NamedHistory(g) && Truthy(g.latest.key) && expireMinutes <= 2 * p.tokenExpireMinute
    requires Run(p, g, before).latest.key == g.latest.key && Truthy(r.dbKey) && r.dbKey != g.latest.key
    requires made <= r.at && Ordered(before + ([r] + after), now)
    requires made <= now < made + expireMinutes * MINUTE
    ensures var token := Generated(g.latest.key.value, made, expireMinutes, effectMinutes);
            var g' := Run(p, g, before + ([r] + after));
            Verified(p, g', token, now, dbKey) == (Payload, g')
  {
    hide Run, Verified;
    var mid := Run(p, g, before);
    HistoryNamed(p, g, before);
    RunAfterRun(p, g, before, [r] + after);
    assert Ordered([r] + after, now) by {
      var all := before + ([r] + after);
      assert forall i :: 0 <= i < 1 + |after| ==> ([r] + after)[i] == all[|before| + i];
    }
    LiveTokenAccepted(p, mid, r, after, now, Generated(g.latest.key.value, made, expireMinutes, effectMinutes), made, dbKey);
  }

  lemma {:induction false} RunAfterRun(p: Params, g: Group, a: seq<Rotation>, b: seq<Rotation>)
    ensures Run(p, g, a + b) == Run(p, Run(p, g, a), b)
  {
    hide UpdatedKeys;
    if b == [] {
      assert a + b == a;
    } else {
      assert (a + b)[..|a + b| - 1] == a + b[..|b| - 1];
      RunAfterRun(p, g, a, b[..|b| - 1]);
    }
  }

  // ----- Concrete runs -----

  const DEFAULTS := Params(60, 3)

  /** The group of a fresh process at time zero, and its keys after rotations to A, B and C. */
  function ThreeRotations(): Group {
    Group(Key(Some("C"), 259201), [Key(Some("A"), 7200), Key(Some("B"), 7201)])
  }

  lemma ThreeRotationsRun()
    ensures Run(DEFAULTS, Group(Key(None, 3 * DAY), []),
                [Rotation(0, 0, Some("A")), Rotation(0, 0, Some("B")), Rotation(1, 1, Some("C"))]) == ThreeRotations()
  {
    var start := Group(Key(None, 3 * DAY), []);
    var a, b, c := Rotation(0, 0, Some("A")), Rotation(0, 0, Some("B")), Rotation(1, 1, Some("C"));
    var kA, kB := Key(Some("A"), 120 * MINUTE), Key(Some("B"), 1 + 120 * MINUTE);
    var g1, g2 := Group(Key(Some("A"), 3 * DAY), []), Group(Key(Some("B"), 3 * DAY), [kA]);
    assert UpdatedKeys(DEFAULTS, start, a.dbKey, 0, 0) == g1;
    assert [] + [kA] == [kA] && Sweep([kA], 0, 0) == Sweep([kA], 1, 0) == [kA];
    assert UpdatedKeys(DEFAULTS, g1, b.dbKey, 0, 0) == g2;
    assert [kA] + [kB] == [kA, kB];
    assert Sweep([kA, kB], 0, 1) == Sweep([kA, kB], 1, 1) == Sweep([kA, kB], 2, 1) == [kA, kB];
    assert UpdatedKeys(DEFAULTS, g2, c.dbKey, 1, 1) == ThreeRotations();
    assert [a] + [b, c] == [a, b, c] && [b] + [c] == [b, c] && [c] + [] == [c];
    hide UpdatedKeys, Sweep;
    RunJoins(DEFAULTS, start, a, [b, c]);
    RunJoins(DEFAULTS, g1, b, [c]);
    RunJoins(DEFAULTS, g2, c, []);
    assert Run(DEFAULTS, ThreeRotations(), []) == ThreeRotations();
  }

  /** Of three keys, the first expired and the last valid, only the first goes. */
  lemma {:induction false} SecondPassedOver(a: Key, b: Key, c: Key, now: Time)
    requires !a.IsValid(now) && c.IsValid(now)
    ensures Sweep([a, b, c], 0, now) == [b, c]
  {
    assert [a, b, c][1..] == [b, c];
    assert RemoveFirst([a, b, c], a) == [b, c];
    assert Sweep([b, c], 1, now) == Sweep([b, c], 2, now) == [b, c];
  }

  /** A run reaches two expired keys side by side: the rotation to D then leaves one of them in the history. */
  lemma ExpiredKeyStays()
    ensures AdjacentExpired(ThreeRotations().history, 130 * MINUTE)
    ensures Key(Some("B"), 1 + 120 * MINUTE)
            in UpdatedKeys(DEFAULTS, ThreeRotations(), Some("D"), 130 * MINUTE, 130 * MINUTE).history
  {
    var now := 130 * MINUTE;
    var kA, kB, kC := Key(Some("A"), 120 * MINUTE), Key(Some("B"), 1 + 120 * MINUTE), Key(Some("C"), now + 120 * MINUTE);
    hide Survivors, Sweep;
    assert !ThreeRotations().history[0].IsValid(now) && !ThreeRotations().history[1].IsValid(now);
    assert [kA, kB] + [kC] == [kA, kB, kC];
    SecondPassedOver(kA, kB, kC, now);
    assert [kB, kC][0] == kB;
  }

  /**
   * A token just generated by a key that runs out unnoticed at this moment is refused by the check that
   * notices; a moment before it was accepted.
   */
  lemma FreshTokenRefused()
    ensures var g := Group(Key(Some("A"), 259200), []);
            && Generated("A", 259200, 15, 1) == Token("A", 259140, 260100)
            && Verified(DEFAULTS, g, Generated("A", 259200, 15, 1), 259200, Some("B")).0 == DecodeError
            && Verified(DEFAULTS, g, Generated("A", 259199, 15, 1), 259199, Some("B")).0 == Payload
  {
    var g := Group(Key(Some("A"), 259200), []);
    ScanMisses([g.latest] + g.history, Generated("A", 259200, 15, 1), 259200);
    ScanFinds([g.latest] + g.history, Generated("A", 259199, 15, 1), 259199, g.latest);
    assert "A"[0] != "B"[0];
  }

  lemma {:induction false} ScanMisses(keys: seq<Key>, token: Token, now: Time)
    requires forall x :: x in keys ==> x.key != None
    requires forall x :: x in keys && x.key == Some(token.signer) ==> !x.IsValid(now)
    ensures ScanKeys(keys, token, now) == None
  {
    if keys != [] {
      ScanMisses(keys[1..], token, now);
    }
  }
}
