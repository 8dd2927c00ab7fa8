/** The withdrawal processor: walks a position's entries oldest first, refusing to skip an
    earlier locked entry, taking principal from each live entry it visits and crediting it
    the reward of what it takes. */
module Withdrawal {
  import opened Results
  import opened Accrual
  import opened LockSchedule
  import opened Ledger

  /** Puts `e` in front of a successful walk of the remaining entries. */
  function Prepend(e: Entry, r: Result<seq<Entry>>): Result<seq<Entry>>
  {
    if r.Ok? then Ok([e] + r.value) else r
  }

  /** Puts the entries already walked in front of a successful walk of the rest. */
  function Join(done: seq<Entry>, r: Result<seq<Entry>>): Result<seq<Entry>>
  {
    if r.Ok? then Ok(done + r.value) else r
  }

  lemma JoinPrepend(done: seq<Entry>, e: Entry, r: Result<seq<Entry>>)
    ensures Join(done, Prepend(e, r)) == Join(done + [e], r)
  {
    if r.Ok? {
      assert done + ([e] + r.value) == (done + [e]) + r.value;
    }
  }

  /** The entries after withdrawing `amount` at time `now` against accumulator `acc`:
      exhausted entries are skipped, a live entry still locked fails the whole request, any
      other live entry gives min(remaining, live principal) and is credited the reward of
      what it gives; the walk stops once nothing remains to take. */
  function Walk(es: seq<Entry>, amount: nat, acc: nat, table: map<nat, nat>, now: nat): Result<seq<Entry>>
    requires Settleable(es, acc)
    decreases |es|
  {
    if amount == 0 then Ok(es)
    else if es == [] then Err(InsufficientStake)
    else if Live(es[0]) == 0 then Prepend(es[0], Walk(es[1..], amount, acc, table, now))
    else if now < es[0].lockExpiry then Err(StakesLocked)
    else
      var take := if amount < Live(es[0]) then amount else Live(es[0]);
      Prepend(Take(es[0], take, acc, FactorOf(table, es[0].tier)), Walk(es[1..], amount - take, acc, table, now))
  }

  /** Live principal that can be reached from the oldest entry without passing a live entry
      that is still locked at `now`. */
  function Reachable(es: seq<Entry>, now: nat): nat
    requires forall i :: 0 <= i < |es| ==> es[i].withdrawn <= es[i].principal
  {
    if es == [] then 0
    else if Live(es[0]) > 0 && now < es[0].lockExpiry then 0
    else Live(es[0]) + Reachable(es[1..], now)
  }

  /** The loop the contract runs, proved equal to the walk: it either returns the new
      entries or the reason the whole request fails. */
  method WithdrawEntries(es: seq<Entry>, amount: nat, acc: nat, table: map<nat, nat>, now: nat)
    returns (r: Result<seq<Entry>>)
    requires Settleable(es, acc)
    ensures r == Walk(es, amount, acc, table, now)
  {
    var done: seq<Entry> := [];
    var remaining: nat := amount;
    var i := 0;
    assert es[i..] == es;
    ghost var whole := Walk(es, amount, acc, table, now);
    assert whole.Ok? ==> [] + whole.value == whole.value;
    while i < |es| && remaining > 0
      invariant 0 <= i <= |es| && Settleable(es[i..], acc)
      invariant Walk(es, amount, acc, table, now) == Join(done, Walk(es[i..], remaining, acc, table, now))
    {
      var e := es[i];
      assert es[i..][1..] == es[i + 1..];
      ghost var rest := es[i + 1..];
      if e.withdrawn == e.principal {
        JoinPrepend(done, e, Walk(rest, remaining, acc, table, now));
        done := done + [e];
      } else if now < e.lockExpiry {
        return Err(StakesLocked);
      } else {
        var take := if remaining < e.principal - e.withdrawn then remaining else e.principal - e.withdrawn;
        var x := Take(e, take, acc, FactorOf(table, e.tier));
        JoinPrepend(done, x, Walk(rest, remaining - take, acc, table, now));
        done := done + [x];
        remaining := remaining - take;
      }
      i := i + 1;
    }
    if remaining > 0 {
      return Err(InsufficientStake);
    }
    return Ok(done + es[i..]);
  }

  /** A request succeeds exactly when the reachable principal covers it; a request within
      `currentStaked` that fails, fails because of a lock. */
  lemma {:induction false} WalkSucceedsIff(es: seq<Entry>, amount: nat, acc: nat, table: map<nat, nat>, now: nat)
    requires Settleable(es, acc)
    ensures Reachable(es, now) <= CurrentStaked(es)
    ensures Walk(es, amount, acc, table, now).Ok? <==> amount <= Reachable(es, now)
    ensures Walk(es, amount, acc, table, now).Err? && amount <= CurrentStaked(es) ==>
              Walk(es, amount, acc, table, now).error == StakesLocked
    decreases |es|
  {
    if es != [] {
      var take := if amount < Live(es[0]) then amount else Live(es[0]);
      WalkSucceedsIff(es[1..], amount, acc, table, now);
      WalkSucceedsIff(es[1..], amount - take, acc, table, now);
    }
  }

  /** `b` is `a` after withdrawals: the same principal, deposit block, tier, lock and
      snapshot, with a withdrawn amount and a reward no smaller. */
  predicate Evolved(a: Entry, b: Entry)
  {
    && b == a.(reward := b.reward, withdrawn := b.withdrawn)
    && a.withdrawn <= b.withdrawn && a.reward <= b.reward
  }

  /** A successful walk leaves every entry settleable: nothing withdrawn past the principal,
      no snapshot past the accumulator. */
  lemma {:induction false} WalkSettleable(es: seq<Entry>, amount: nat, acc: nat, table: map<nat, nat>, now: nat)
    requires Settleable(es, acc)
    ensures Walk(es, amount, acc, table, now).Ok? ==> Settleable(Walk(es, amount, acc, table, now).value, acc)
    decreases |es|
  {
    if amount > 0 && es != [] && (Live(es[0]) == 0 || es[0].lockExpiry <= now) {
      var take := if Live(es[0]) == 0 then 0 else if amount < Live(es[0]) then amount else Live(es[0]);
      WalkSettleable(es[1..], amount - take, acc, table, now);
    }
  }

  /** A successful walk keeps every entry in place with its principal, tier, lock, deposit
      block and snapshot; withdrawn amounts and rewards only grow. */
  lemma {:induction false} WalkKeepsEntries(es: seq<Entry>, amount: nat, acc: nat, table: map<nat, nat>, now: nat)
    requires Settleable(es, acc)
    ensures var r := Walk(es, amount, acc, table, now);
      r.Ok? ==>
        && |r.value| == |es|
        && forall i :: 0 <= i < |es| ==> Evolved(es[i], r.value[i])
    decreases |es|
  {
    if amount > 0 && es != [] && (Live(es[0]) == 0 || es[0].lockExpiry <= now) {
      var take := if Live(es[0]) == 0 then 0 else if amount < Live(es[0]) then amount else Live(es[0]);
      WalkKeepsEntries(es[1..], amount - take, acc, table, now);
      var tail := Walk(es[1..], amount - take, acc, table, now);
      if tail.Ok? {
        var r := Walk(es, amount, acc, table, now).value;
        assert r[1..] == tail.value;
        forall i | 0 < i < |es| ensures Evolved(es[i], r[i]) {
          assert r[i] == tail.value[i - 1] && es[i] == es[1..][i - 1];
        }
      }
    }
  }

  /** A successful walk keeps every entry's lock tier. */
  lemma WalkKeepsTiers(es: seq<Entry>, amount: nat, acc: nat, table: map<nat, nat>, now: nat)
    requires Settleable(es, acc) && TiersKnown(es, table)
    requires Walk(es, amount, acc, table, now).Ok?
    ensures TiersKnown(Walk(es, amount, acc, table, now).value, table)
  {
    WalkKeepsEntries(es, amount, acc, table, now);
    var rest := Walk(es, amount, acc, table, now).value;
    forall i | 0 <= i < |rest| ensures rest[i].tier in table {
      assert rest[i].tier == es[i].tier;
    }
  }

  /** A successful walk moves exactly `amount` of principal from live to withdrawn and leaves
      `totalStaked` alone. */
  lemma {:induction false} WalkMovesAmount(es: seq<Entry>, amount: nat, acc: nat, table: map<nat, nat>, now: nat)
    requires Settleable(es, acc)
    requires Walk(es, amount, acc, table, now).Ok?
    ensures Settleable(Walk(es, amount, acc, table, now).value, acc)
    ensures TotalStaked(Walk(es, amount, acc, table, now).value) == TotalStaked(es)
    ensures CurrentStaked(Walk(es, amount, acc, table, now).value) + amount == CurrentStaked(es)
    ensures TotalWithdrawn(Walk(es, amount, acc, table, now).value) == TotalWithdrawn(es) + amount
    decreases |es|
  {
    WalkSettleable(es, amount, acc, table, now);
    WalkKeepsEntries(es, amount, acc, table, now);
    if amount > 0 {
      var r := Walk(es, amount, acc, table, now).value;
      var take := if Live(es[0]) == 0 then 0 else if amount < Live(es[0]) then amount else Live(es[0]);
      WalkMovesAmount(es[1..], amount - take, acc, table, now);
      assert r[1..] == Walk(es[1..], amount - take, acc, table, now).value;
    }
  }

  /** Withdrawal never loses reward: what it credits to the entries is exactly the pending
      reward it removes, at the same accumulator. */
  lemma {:induction false} WalkKeepsReward(es: seq<Entry>, amount: nat, acc: nat, table: map<nat, nat>, now: nat)
    requires Settleable(es, acc)
    requires Walk(es, amount, acc, table, now).Ok?
    ensures Settleable(Walk(es, amount, acc, table, now).value, acc)
    ensures TotalRewards(Walk(es, amount, acc, table, now).value) + Pending(Walk(es, amount, acc, table, now).value, acc, table)
              == TotalRewards(es) + Pending(es, acc, table)
    decreases |es|
  {
    WalkSettleable(es, amount, acc, table, now);
    if amount > 0 {
      var r := Walk(es, amount, acc, table, now).value;
      var e, f := es[0], FactorOf(table, es[0].tier);
      var take := if Live(e) == 0 then 0 else if amount < Live(e) then amount else Live(e);
      var rest := Walk(es[1..], amount - take, acc, table, now).value;
      WalkKeepsReward(es[1..], amount - take, acc, table, now);
      assert r == [r[0]] + rest;
      assert TotalRewards(r) == r[0].reward + TotalRewards(rest);
      assert Pending(r, acc, table) == Earned(r[0], acc, f) + Pending(rest, acc, table);
      if Live(e) == 0 {
        assert r[0] == e;
      } else {
        TakeKeepsEarnings(e, take, acc, f);
      }
    }
  }

  /** Oldest first: when a successful walk takes principal from an entry, every older entry
      has been drained. */
  lemma {:induction false} WalkOldestFirst(es: seq<Entry>, amount: nat, acc: nat, table: map<nat, nat>, now: nat)
    requires Settleable(es, acc)
    requires Walk(es, amount, acc, table, now).Ok?
    ensures var r := Walk(es, amount, acc, table, now).value;
      |r| == |es| &&
      forall i, j :: 0 <= j < i < |es| && r[i].withdrawn > es[i].withdrawn ==> r[j].withdrawn == r[j].principal
    decreases |es|
  {
    WalkKeepsEntries(es, amount, acc, table, now);
    if amount > 0 {
      var r := Walk(es, amount, acc, table, now).value;
      var take := if Live(es[0]) == 0 then 0 else if amount < Live(es[0]) then amount else Live(es[0]);
      var rest := Walk(es[1..], amount - take, acc, table, now).value;
      WalkOldestFirst(es[1..], amount - take, acc, table, now);
      assert r[1..] == rest;
      forall i, j | 0 <= j < i < |es| && r[i].withdrawn > es[i].withdrawn
        ensures r[j].withdrawn == r[j].principal
      {
        assert rest[i - 1] == r[i] && es[1..][i - 1] == es[i];
        if j == 0 {
          assert amount - take > 0;
        } else {
          assert rest[j - 1] == r[j];
        }
      }
    }
  }

  /** Withdrawing all of currentStaked leaves nothing pending: every unit of the position's
      pending reward has been credited to its entries. */
  lemma FullWithdrawClears(es: seq<Entry>, acc: nat, table: map<nat, nat>, now: nat)
    requires Settleable(es, acc)
    requires Walk(es, CurrentStaked(es), acc, table, now).Ok?
    ensures var r := Walk(es, CurrentStaked(es), acc, table, now).value;
      && Settleable(r, acc)
      && Pending(r, acc, table) == 0
      && TotalRewards(r) == TotalRewards(es) + Pending(es, acc, table)
  {
    var r := Walk(es, CurrentStaked(es), acc, table, now).value;
    WalkMovesAmount(es, CurrentStaked(es), acc, table, now);
    WalkKeepsReward(es, CurrentStaked(es), acc, table, now);
    ZeroLiveNoPending(r, acc, table);
  }
}
