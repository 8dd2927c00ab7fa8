/** The per-user stake ledger: each (user, pool) position is an append-only list of deposit
    entries, each earning against the pool's accumulator and weighted by its lock tier. */
module Ledger {
  import opened Accrual
  import opened LockSchedule

  type Address = nat

  datatype Entry = Entry(
    principal: nat,
    depositBlock: nat,
    tier: nat,         // lock tier, in weeks
    lockExpiry: nat,   // timestamp before which the entry is locked
    snapshot: nat,     // accumulator value when the entry was staked
    reward: nat,       // reward credited by withdrawals, cumulative
    withdrawn: nat)    // principal already taken back

  /** Every entry has withdrawn no more than it deposited and was staked at or before `acc`. */
  ghost predicate Settleable(es: seq<Entry>, acc: nat)
  {
    forall i :: 0 <= i < |es| ==> es[i].withdrawn <= es[i].principal && es[i].snapshot <= acc
  }

  /** Every entry's lock tier has a factor in `table`. */
  ghost predicate TiersKnown(es: seq<Entry>, table: map<nat, nat>)
  {
    forall i :: 0 <= i < |es| ==> es[i].tier in table
  }

  /** Principal still held by an entry. */
  function Live(e: Entry): nat
    requires e.withdrawn <= e.principal
  {
    e.principal - e.withdrawn
  }

  /** Reward the entry's live principal has earned since its snapshot, at accumulator `acc`:
      live principal times the accumulator delta, unscaled, then weighted by factor/100. */
  function Earned(e: Entry, acc: nat, factor: nat): nat
    requires e.withdrawn <= e.principal && e.snapshot <= acc
  {
    Live(e) * (acc - e.snapshot) / PRECISION * factor / 100
  }

  /** The reward a withdrawal of `take` from `e` credits to the entry at accumulator `acc`:
      the fall in the entry's unsettled earnings when its live principal shrinks by `take`.
      The rest of the live principal keeps its snapshot and goes on earning from it. */
  function Credit(e: Entry, take: nat, acc: nat, factor: nat): nat
    requires e.withdrawn + take <= e.principal && e.snapshot <= acc
  {
    EarnedShrinks(e, take, acc, factor);
    Earned(e, acc, factor) - Earned(e.(withdrawn := e.withdrawn + take), acc, factor)
  }

  /** Takes `take` of principal out of `e`, crediting the reward of the withdrawn part; the
      snapshot, principal, lock and tier stay put. */
  function Take(e: Entry, take: nat, acc: nat, factor: nat): (r: Entry)
    requires e.withdrawn + take <= e.principal && e.snapshot <= acc
    ensures r == e.(reward := r.reward, withdrawn := e.withdrawn + take)
    ensures r.reward >= e.reward
  {
    e.(reward := e.reward + Credit(e, take, acc, factor), withdrawn := e.withdrawn + take)
  }

  /** Less live principal never earns more. */
  lemma EarnedShrinks(e: Entry, take: nat, acc: nat, factor: nat)
    requires e.withdrawn + take <= e.principal && e.snapshot <= acc
    ensures Earned(e.(withdrawn := e.withdrawn + take), acc, factor) <= Earned(e, acc, factor)
  {
    var e' := e.(withdrawn := e.withdrawn + take);
    var x, y := Live(e') * (acc - e.snapshot), Live(e) * (acc - e.snapshot);
    MulMonotone(Live(e'), Live(e), acc - e.snapshot);
    DivMonotone(x, y, PRECISION);
    MulMonotone(x / PRECISION, y / PRECISION, factor);
    DivMonotone(x / PRECISION * factor, y / PRECISION * factor, 100);
  }

  /** A withdrawal neither loses nor creates reward: what it credits is exactly what leaves
      the entry's unsettled earnings, and taking all the live principal leaves nothing
      unsettled. */
  lemma TakeKeepsEarnings(e: Entry, take: nat, acc: nat, factor: nat)
    requires e.withdrawn + take <= e.principal && e.snapshot <= acc
    ensures var x := Take(e, take, acc, factor);
      && x.reward + Earned(x, acc, factor) == e.reward + Earned(e, acc, factor)
      && (take == Live(e) ==> x.reward == e.reward + Earned(e, acc, factor) && Earned(x, acc, factor) == 0)
  {
    var x := Take(e, take, acc, factor);
    assert x.withdrawn == e.withdrawn + take && x.snapshot == e.snapshot;
    assert Earned(x, acc, factor) == Earned(e.(withdrawn := e.withdrawn + take), acc, factor);
  }

  /** The credit is at least the withdrawn principal's own reward over the same stretch,
      rounded down; rounding of the whole entry's earnings goes to the credit. */
  lemma CreditCoversTake(e: Entry, take: nat, acc: nat, factor: nat)
    requires e.withdrawn + take <= e.principal && e.snapshot <= acc
    ensures take * (acc - e.snapshot) / PRECISION * factor / 100 <= Credit(e, take, acc, factor)
  {
    var d := acc - e.snapshot;
    var e' := e.(withdrawn := e.withdrawn + take);
    var x, y := take * d, Live(e') * d;
    assert Live(e) * d == x + y by {
      assert Live(e) == take + Live(e');
    }
    FloorAdd(x, y, PRECISION);
    WeighSum(x / PRECISION, y / PRECISION, (x + y) / PRECISION, factor);
  }

  /** Weighting two amounts apart never gives more than weighting an amount at least their
      sum. */
  lemma WeighSum(a: nat, b: nat, c: nat, factor: nat)
    requires a + b <= c
    ensures a * factor / 100 + b * factor / 100 <= c * factor / 100
  {
    MulMonotone(a + b, c, factor);
    assert (a + b) * factor == a * factor + b * factor;
    FloorAdd(a * factor, b * factor, 100);
    DivMonotone(a * factor + b * factor, c * factor, 100);
  }

  /** Floor division never gains by adding first: x/d + y/d <= (x + y)/d. */
  lemma FloorAdd(x: nat, y: nat, d: nat)
    requires d > 0
    ensures x / d + y / d <= (x + y) / d
  {
    DivBracket(x, d);
    DivBracket(y, d);
    DivBracket(x + y, d);
    var q := (x + y) / d;
    assert (x / d + y / d) * d == (x / d) * d + (y / d) * d;
    if x / d + y / d > q {
      MulMonotone(q + 1, x / d + y / d, d);
      assert false;
    }
  }

  /** Sum of principals ever deposited (`totalStaked`). */
  function TotalStaked(es: seq<Entry>): nat
  {
    if es == [] then 0 else es[0].principal + TotalStaked(es[1..])
  }

  /** Sum of live principals (`currentStaked`). */
  function CurrentStaked(es: seq<Entry>): nat
    requires forall i :: 0 <= i < |es| ==> es[i].withdrawn <= es[i].principal
  {
    if es == [] then 0 else Live(es[0]) + CurrentStaked(es[1..])
  }

  /** Sum of withdrawn amounts. */
  function TotalWithdrawn(es: seq<Entry>): nat
  {
    if es == [] then 0 else es[0].withdrawn + TotalWithdrawn(es[1..])
  }

  /** Sum of credited rewards (`totalRewards`). */
  function TotalRewards(es: seq<Entry>): nat
  {
    if es == [] then 0 else es[0].reward + TotalRewards(es[1..])
  }

  /** Unsettled reward of a position at accumulator `acc` (`pendingReward`). */
  function Pending(es: seq<Entry>, acc: nat, table: map<nat, nat>): nat
    requires Settleable(es, acc)
  {
    if es == [] then 0
    else Earned(es[0], acc, FactorOf(table, es[0].tier)) + Pending(es[1..], acc, table)
  }

  /** A position with no live principal has nothing pending, whatever the accumulator. */
  lemma {:induction false} ZeroLiveNoPending(es: seq<Entry>, acc: nat, table: map<nat, nat>)
    requires Settleable(es, acc) && CurrentStaked(es) == 0
    ensures Pending(es, acc, table) == 0
  {
    if es != [] {
      assert Live(es[0]) == 0;
      ZeroLiveNoPending(es[1..], acc, table);
    }
  }

  /** `currentStaked == totalStaked - sum of withdrawAmount`, for every position. */
  lemma {:induction false} CurrentStakedIdentity(es: seq<Entry>)
    requires forall i :: 0 <= i < |es| ==> es[i].withdrawn <= es[i].principal
    ensures CurrentStaked(es) + TotalWithdrawn(es) == TotalStaked(es)
  {
    if es != [] {
      CurrentStakedIdentity(es[1..]);
    }
  }

  /** Pending reward never falls as the accumulator rises. */
  lemma {:induction false} PendingMonotone(es: seq<Entry>, a: nat, b: nat, table: map<nat, nat>)
    requires a <= b && Settleable(es, a)
    ensures Settleable(es, b)
    ensures Pending(es, a, table) <= Pending(es, b, table)
  {
    if es != [] {
      PendingMonotone(es[1..], a, b, table);
      EarnedMonotone(es[0], a, b, FactorOf(table, es[0].tier));
    }
  }

  /** An entry's earnings never fall as the accumulator rises. */
  lemma EarnedMonotone(e: Entry, a: nat, b: nat, factor: nat)
    requires e.withdrawn <= e.principal && e.snapshot <= a <= b
    ensures Earned(e, a, factor) <= Earned(e, b, factor)
  {
    var x, y := Live(e) * (a - e.snapshot), Live(e) * (b - e.snapshot);
    MulMonotone(a - e.snapshot, b - e.snapshot, Live(e));
    DivMonotone(x, y, PRECISION);
    MulMonotone(x / PRECISION, y / PRECISION, factor);
    DivMonotone(x / PRECISION * factor, y / PRECISION * factor, 100);
  }

  /** A deposit appended at the current accumulator adds its principal to `totalStaked` and
      `currentStaked`, and leaves settled and pending reward unchanged. */
  lemma {:induction false} AppendDeposit(es: seq<Entry>, e: Entry, acc: nat, table: map<nat, nat>)
    requires Settleable(es, acc)
    requires e.snapshot == acc && e.withdrawn == 0 && e.reward == 0
    ensures Settleable(es + [e], acc)
    ensures TotalStaked(es + [e]) == TotalStaked(es) + e.principal
    ensures CurrentStaked(es + [e]) == CurrentStaked(es) + e.principal
    ensures TotalWithdrawn(es + [e]) == TotalWithdrawn(es)
    ensures TotalRewards(es + [e]) == TotalRewards(es)
    ensures Pending(es + [e], acc, table) == Pending(es, acc, table)
  {
    if es == [] {
      assert [e][1..] == [];
    } else {
      assert (es + [e])[1..] == es[1..] + [e];
      AppendDeposit(es[1..], e, acc, table);
    }
  }
}
