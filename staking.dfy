/** The staking contract's state: the lock-factor table, the pools, and every user's
    positions, changed by one atomic call at a time at an explicit block and time. */
module Staking {
  import opened Results
  import opened LockSchedule
  import opened Accrual
  import opened Ledger
  import opened Withdrawal
  import opened PoolTotals

  datatype Event =
    | Staked(user: Address, poolId: nat, amount: nat, tier: nat)
    | Withdrawn(user: Address, poolId: nat, amount: nat)

  /** What `getUserPoolStake` reports. */
  datatype UserPoolStake = UserPoolStake(totalStaked: nat, currentStaked: nat, totalRewards: nat, stakes: seq<Entry>)

  /** The entries of `user` in pool `pid`; none when the user never staked there. */
  function PositionOf(positions: map<Key, seq<Entry>>, user: Address, pid: nat): seq<Entry>
  {
    if (user, pid) in positions then positions[(user, pid)] else []
  }

  /** One user's live principal in a pool, present or not, is part of the pool's sum. */
  lemma PositionOfWithinPool(positions: map<Key, seq<Entry>>, user: Address, pid: nat)
    requires WellFormed(positions)
    ensures forall i :: 0 <= i < |PositionOf(positions, user, pid)| ==>
      PositionOf(positions, user, pid)[i].withdrawn <= PositionOf(positions, user, pid)[i].principal
    ensures CurrentStaked(PositionOf(positions, user, pid)) <= PoolStaked(positions, pid)
  {
    if (user, pid) in positions {
      PositionWithinPool(positions, (user, pid));
    }
  }

  /** The ledger invariant: every pool has accrued no later than the latest block and holds
      exactly the live principal of its positions; every entry is settleable against its
      pool and has a known lock tier. */
  ghost predicate Consistent(pools: seq<Pool>, table: map<nat, nat>, positions: map<Key, seq<Entry>>, block: nat)
  {
    && (forall pid :: 0 <= pid < |pools| ==> pools[pid].lastAccrualBlock <= block)
    && (forall pid {:trigger PoolStaked(positions, pid)} ::
          0 <= pid < |pools| ==> pools[pid].totalPrincipal == PoolStaked(positions, pid))
    && (forall k :: k in positions ==>
          && k.1 < |pools|
          && Settleable(positions[k], pools[k.1].accRewardPerShare)
          && TiersKnown(positions[k], table))
  }

  /** The entry a stake appends. */
  function Deposit(amount: nat, tier: nat, block: nat, now: nat, acc: nat): (e: Entry)
    ensures e.principal == amount && e.tier == tier && e.lockExpiry == now + LockDuration(tier)
    ensures e.snapshot == acc && e.reward == 0 && e.withdrawn == 0
  {
    Entry(amount, block, tier, now + LockDuration(tier), acc, 0, 0)
  }

  /** Replacing one position and its pool keeps the ledger invariant when the pool has not
      accrued past `block`, its accumulator did not fall, its principal moved with the
      position's live principal, and the new entries are settleable with known tiers. */
  lemma ConsistentUpdate(pools: seq<Pool>, table: map<nat, nat>, positions: map<Key, seq<Entry>>,
                         last: nat, block: nat, user: Address, pid: nat, np: Pool, rest: seq<Entry>)
    requires Consistent(pools, table, positions, last) && last <= block && pid < |pools|
    requires np.lastAccrualBlock <= block && pools[pid].accRewardPerShare <= np.accRewardPerShare
    requires Settleable(rest, np.accRewardPerShare) && TiersKnown(rest, table)
    requires Settleable(PositionOf(positions, user, pid), pools[pid].accRewardPerShare)
    requires np.totalPrincipal + CurrentStaked(PositionOf(positions, user, pid))
               == pools[pid].totalPrincipal + CurrentStaked(rest)
    ensures Consistent(pools[pid := np], table, positions[(user, pid) := rest], block)
  {
    var key := (user, pid);
    var pools', positions' := pools[pid := np], positions[key := rest];
    forall q | 0 <= q < |pools'|
      ensures pools'[q].lastAccrualBlock <= block && pools'[q].totalPrincipal == PoolStaked(positions', q)
    {
      PoolStakedUpdate(positions, key, rest, q);
    }
    forall k | k in positions'
      ensures k.1 < |pools'|
      ensures Settleable(positions'[k], pools'[k.1].accRewardPerShare) && TiersKnown(positions'[k], table)
    {
      if k != key {
        assert positions'[k] == positions[k];
        assert Settleable(positions[k], pools[k.1].accRewardPerShare);
      }
    }
  }

  /** A stake keeps the ledger invariant. */
  lemma StakeConsistent(pools: seq<Pool>, table: map<nat, nat>, positions: map<Key, seq<Entry>>,
                        last: nat, block: nat, user: Address, pid: nat, amount: nat, tier: nat, now: nat)
    requires Consistent(pools, table, positions, last) && last <= block
    requires pid < |pools| && tier in table
    ensures var p := Accrue(pools[pid], block);
      Consistent(pools[pid := p.(totalPrincipal := p.totalPrincipal + amount)], table,
                 positions[(user, pid) := PositionOf(positions, user, pid) + [Deposit(amount, tier, block, now, p.accRewardPerShare)]],
                 block)
  {
    var p := Accrue(pools[pid], block);
    var es := PositionOf(positions, user, pid);
    var e := Deposit(amount, tier, block, now, p.accRewardPerShare);
    assert Settleable(es, pools[pid].accRewardPerShare);
    AppendDeposit(es, e, p.accRewardPerShare, table);
    ConsistentUpdate(pools, table, positions, last, block, user, pid,
                     p.(totalPrincipal := p.totalPrincipal + amount), es + [e]);
  }

  /** A successful withdrawal keeps the ledger invariant. */
  lemma WithdrawConsistent(pools: seq<Pool>, table: map<nat, nat>, positions: map<Key, seq<Entry>>,
                           last: nat, block: nat, user: Address, pid: nat, amount: nat, now: nat)
    requires Consistent(pools, table, positions, last) && last <= block && pid < |pools|
    requires Walk(PositionOf(positions, user, pid), amount, Accrue(pools[pid], block).accRewardPerShare, table, now).Ok?
    ensures var p := Accrue(pools[pid], block);
      && amount <= p.totalPrincipal
      && Consistent(pools[pid := p.(totalPrincipal := p.totalPrincipal - amount)], table,
                    positions[(user, pid) := Walk(PositionOf(positions, user, pid), amount, p.accRewardPerShare, table, now).value],
                    block)
  {
    var p := Accrue(pools[pid], block);
    var key := (user, pid);
    var es := PositionOf(positions, user, pid);
    var acc := p.accRewardPerShare;
    assert Settleable(es, pools[pid].accRewardPerShare) && TiersKnown(es, table);
    WalkKeepsTiers(es, amount, acc, table, now);
    WalkMovesAmount(es, amount, acc, table, now);
    var rest := Walk(es, amount, acc, table, now).value;
    if key in positions {
      PositionWithinPool(positions, key);
    }
    ConsistentUpdate(pools, table, positions, last, block, user, pid,
                     p.(totalPrincipal := p.totalPrincipal - amount), rest);
  }

  class MoonveilStake {
    var pools: seq<Pool>
    var lockFactors: map<nat, nat>
    var positions: map<Key, seq<Entry>>
    var lastBlock: nat  // the latest block a call was made in

    /** Every pool has accrued no later than the latest block and holds exactly the live
        principal of its positions; every entry is settleable against its pool and has a
        known lock tier. */
    ghost predicate Valid()
      reads this
    {
      Consistent(pools, lockFactors, positions, lastBlock)
    }

    /** The entries of `user` in pool `pid`. */
    function Position(user: Address, pid: nat): seq<Entry>
      reads this
    {
      PositionOf(positions, user, pid)
    }

    constructor (block: nat)
      ensures Valid()
      ensures pools == [] && lockFactors == map[] && positions == map[] && lastBlock == block
    {
      pools, lockFactors, positions, lastBlock := [], map[], map[], block;
    }

    /** `pendingReward(user, pid)` seen at `block`: the user's unsettled reward against the
        accumulator as it would be brought up to `block`, without changing anything. */
    function PendingReward(user: Address, pid: nat, block: nat): (r: Result<nat>)
      reads this
      requires Valid() && lastBlock <= block
      ensures r.Ok? <==> pid < |pools|
      ensures r.Ok? && Position(user, pid) == [] ==> r.value == 0
    {
      if pid >= |pools| then Err(PoolNotFound)
      else
        var acc := Accrue(pools[pid], block).accRewardPerShare;
        assert Settleable(Position(user, pid), acc);
        Ok(Pending(Position(user, pid), acc, lockFactors))
    }

    /** `getUserPoolStake(user, pid)`: the aggregates and the entry list of one position. */
    function GetUserPoolStake(user: Address, pid: nat): (v: UserPoolStake)
      reads this
      requires Valid()
      ensures v.stakes == Position(user, pid)
      ensures v.currentStaked + TotalWithdrawn(v.stakes) == v.totalStaked
      ensures pid < |pools| ==> v.currentStaked <= pools[pid].totalPrincipal
    {
      var es := Position(user, pid);
      CurrentStakedIdentity(es);
      PositionOfWithinPool(positions, user, pid);
      UserPoolStake(TotalStaked(es), CurrentStaked(es), TotalRewards(es), es)
    }

    /** `setLockFactors(weeks, factors)`: writes each (weeks[i], factors[i]) pair in order. */
    method SetLockFactors(weeks: seq<nat>, factors: seq<nat>) returns (r: Outcome)
      requires Valid()
      modifies this
      ensures Valid()
      ensures pools == old(pools) && positions == old(positions) && lastBlock == old(lastBlock)
      ensures |weeks| != |factors| ==> r == Failed(InvalidInput) && lockFactors == old(lockFactors)
      ensures |weeks| == |factors| ==> r == Done && lockFactors == ApplyFactors(old(lockFactors), weeks, factors)
    {
      if |weeks| != |factors| {
        return Failed(InvalidInput);
      }
      var i := 0;
      while i < |weeks|
        invariant 0 <= i <= |weeks|
        invariant pools == old(pools) && positions == old(positions) && lastBlock == old(lastBlock)
        invariant lockFactors == ApplyFactors(old(lockFactors), weeks[..i], factors[..i])
      {
        assert weeks[..i + 1][..i] == weeks[..i] && factors[..i + 1][..i] == factors[..i];
        lockFactors := lockFactors[weeks[i] := factors[i]];
        i := i + 1;
      }
      assert weeks[..i] == weeks && factors[..i] == factors;
      ApplyFactorsLookup(old(lockFactors), weeks, factors);
      return Done;
    }

    /** `addPool(token, decimals, rewardPerBlock)`: appends an active, empty pool whose
        index is its identity. */
    method AddPool(token: nat, decimals: nat, rewardPerBlock: nat, block: nat) returns (pid: nat)
      requires Valid() && lastBlock <= block
      modifies this
      ensures Valid() && lastBlock == block
      ensures pid == |old(pools)| && pools == old(pools) + [NewPool(token, decimals, rewardPerBlock, block)]
      ensures positions == old(positions) && lockFactors == old(lockFactors)
    {
      PoolStakedUnused(positions, |pools|);
      pid := |pools|;
      pools := pools + [NewPool(token, decimals, rewardPerBlock, block)];
      lastBlock := block;
    }

    /** Sets the two status flags of an existing pool; nothing else changes. */
    method SetStatus(pid: nat, disabled: bool, blocked: bool)
      requires Valid() && pid < |pools|
      modifies this
      ensures Valid()
      ensures pools == old(pools)[pid := old(pools[pid]).(disabled := disabled, blocked := blocked)]
      ensures positions == old(positions) && lockFactors == old(lockFactors) && lastBlock == old(lastBlock)
    {
      pools := pools[pid := pools[pid].(disabled := disabled, blocked := blocked)];
    }

    /** `disablePool(pid)`: freezes the pool for both staking and withdrawal. */
    method DisablePool(pid: nat) returns (r: Outcome)
      requires Valid()
      modifies this
      ensures Valid()
      ensures positions == old(positions) && lockFactors == old(lockFactors) && lastBlock == old(lastBlock)
      ensures pid >= |old(pools)| ==> r == Failed(PoolNotFound) && pools == old(pools)
      ensures pid < |old(pools)| ==> r == Done && pools == old(pools)[pid := old(pools[pid]).(disabled := true)]
    {
      if pid >= |pools| {
        return Failed(PoolNotFound);
      }
      SetStatus(pid, true, pools[pid].blocked);
      return Done;
    }

    /** `enablePool(pid)`: lifts the freeze. */
    method EnablePool(pid: nat) returns (r: Outcome)
      requires Valid()
      modifies this
      ensures Valid()
      ensures positions == old(positions) && lockFactors == old(lockFactors) && lastBlock == old(lastBlock)
      ensures pid >= |old(pools)| ==> r == Failed(PoolNotFound) && pools == old(pools)
      ensures pid < |old(pools)| ==> r == Done && pools == old(pools)[pid := old(pools[pid]).(disabled := false)]
    {
      if pid >= |pools| {
        return Failed(PoolNotFound);
      }
      SetStatus(pid, false, pools[pid].blocked);
      return Done;
    }

    /** `blockPool(pid)`: refuses new stakes but still lets depositors withdraw. */
    method BlockPool(pid: nat) returns (r: Outcome)
      requires Valid()
      modifies this
      ensures Valid()
      ensures positions == old(positions) && lockFactors == old(lockFactors) && lastBlock == old(lastBlock)
      ensures pid >= |old(pools)| ==> r == Failed(PoolNotFound) && pools == old(pools)
      ensures pid < |old(pools)| ==> r == Done && pools == old(pools)[pid := old(pools[pid]).(blocked := true)]
    {
      if pid >= |pools| {
        return Failed(PoolNotFound);
      }
      SetStatus(pid, pools[pid].disabled, true);
      return Done;
    }

    /** `unblockPool(pid)`: accepts new stakes again. */
    method UnblockPool(pid: nat) returns (r: Outcome)
      requires Valid()
      modifies this
      ensures Valid()
      ensures positions == old(positions) && lockFactors == old(lockFactors) && lastBlock == old(lastBlock)
      ensures pid >= |old(pools)| ==> r == Failed(PoolNotFound) && pools == old(pools)
      ensures pid < |old(pools)| ==> r == Done && pools == old(pools)[pid := old(pools[pid]).(blocked := false)]
    {
      if pid >= |pools| {
        return Failed(PoolNotFound);
      }
      SetStatus(pid, pools[pid].disabled, false);
      return Done;
    }

    /** `stake(pid, amount, tier)` by `user` in block `block` at time `now`: accrues the pool,
        appends a fresh entry locked for `tier` weeks and adds its principal to the pool. */
    method Stake(user: Address, pid: nat, amount: nat, tier: nat, block: nat, now: nat) returns (r: Result<Event>)
      requires Valid() && lastBlock <= block
      modifies this
      ensures Valid() && lockFactors == old(lockFactors)
      ensures pid >= |old(pools)| ==> r == Err(PoolNotFound)
      ensures pid < |old(pools)| && old(pools[pid]).disabled ==> r == Err(PoolDisabled)
      ensures pid < |old(pools)| && !old(pools[pid]).disabled && old(pools[pid]).blocked ==> r == Err(PoolBlocked)
      ensures (pid < |old(pools)| && !old(pools[pid]).disabled && !old(pools[pid]).blocked &&
               (amount == 0 || tier !in lockFactors)) ==> r == Err(InvalidInput)
      ensures r.Ok? <==>
        pid < |old(pools)| && !old(pools[pid]).disabled && !old(pools[pid]).blocked && amount > 0 && tier in lockFactors
      ensures r.Err? ==> pools == old(pools) && positions == old(positions) && lastBlock == old(lastBlock)
      ensures r.Ok? ==>
        var p := Accrue(old(pools[pid]), block);
        && r.value == Staked(user, pid, amount, tier) && lastBlock == block
        && pools == old(pools)[pid := p.(totalPrincipal := p.totalPrincipal + amount)]
        && positions == old(positions)[(user, pid) :=
             old(Position(user, pid)) + [Deposit(amount, tier, block, now, p.accRewardPerShare)]]
      ensures r.Ok? ==> CurrentStaked(Position(user, pid)) == old(CurrentStaked(Position(user, pid))) + amount
      ensures r.Ok? ==> TotalRewards(Position(user, pid)) == old(TotalRewards(Position(user, pid)))
      ensures r.Ok? ==> PendingReward(user, pid, block) == old(PendingReward(user, pid, block))
    {
      if pid >= |pools| {
        return Err(PoolNotFound);
      }
      if pools[pid].disabled {
        return Err(PoolDisabled);
      }
      if pools[pid].blocked {
        return Err(PoolBlocked);
      }
      if amount == 0 || tier !in lockFactors {
        return Err(InvalidInput);
      }
      CommitStake(user, pid, amount, tier, block, now);
      return Ok(Staked(user, pid, amount, tier));
    }

    /** The committing half of an accepted stake: the pool is accrued and gains `amount` of
        principal, the position gains the new entry at the end. */
    method CommitStake(user: Address, pid: nat, amount: nat, tier: nat, block: nat, now: nat)
      requires Valid() && lastBlock <= block && pid < |pools| && tier in lockFactors
      modifies this
      ensures Valid() && lastBlock == block && lockFactors == old(lockFactors)
      ensures
        var p := Accrue(old(pools[pid]), block);
        && pools == old(pools)[pid := p.(totalPrincipal := p.totalPrincipal + amount)]
        && positions == old(positions)[(user, pid) :=
             old(Position(user, pid)) + [Deposit(amount, tier, block, now, p.accRewardPerShare)]]
      ensures CurrentStaked(Position(user, pid)) == old(CurrentStaked(Position(user, pid))) + amount
      ensures TotalRewards(Position(user, pid)) == old(TotalRewards(Position(user, pid)))
      ensures PendingReward(user, pid, block) == old(PendingReward(user, pid, block))
    {
      var pool := Accrue(pools[pid], block);
      var es := Position(user, pid);
      var e := Deposit(amount, tier, block, now, pool.accRewardPerShare);
      StakeConsistent(pools, lockFactors, positions, lastBlock, block, user, pid, amount, tier, now);
      assert Settleable(es, pools[pid].accRewardPerShare);
      AppendDeposit(es, e, pool.accRewardPerShare, lockFactors);
      positions, pools, lastBlock :=
        positions[(user, pid) := es + [e]], pools[pid := pool.(totalPrincipal := pool.totalPrincipal + amount)], block;
      assert Position(user, pid) == es + [e];
      assert Accrue(pools[pid], block) == pools[pid];
    }

    /** `withdraw(pid, amount)` by `user` in block `block` at time `now`: checks the pool, the
        position and the amount, accrues, and walks the entries oldest first; any failure
        leaves the ledger as it was. */
    method Withdraw(user: Address, pid: nat, amount: nat, block: nat, now: nat) returns (r: Result<Event>)
      requires Valid() && lastBlock <= block
      modifies this
      ensures Valid() && lockFactors == old(lockFactors)
      ensures pid >= |old(pools)| ==> r == Err(PoolNotFound)
      ensures pid < |old(pools)| && old(pools[pid]).disabled ==> r == Err(PoolDisabled)
      ensures pid < |old(pools)| && !old(pools[pid]).disabled && old(Position(user, pid)) == [] ==> r == Err(NoStakeFound)
      ensures (pid < |old(pools)| && !old(pools[pid]).disabled && old(Position(user, pid)) != [] &&
               amount == 0) ==> r == Err(InvalidInput)
      ensures (pid < |old(pools)| && !old(pools[pid]).disabled && old(Position(user, pid)) != [] &&
               amount > old(CurrentStaked(Position(user, pid)))) ==> r == Err(InsufficientStake)
      ensures (pid < |old(pools)| && !old(pools[pid]).disabled && old(Position(user, pid)) != [] &&
               0 < amount <= old(CurrentStaked(Position(user, pid))) && r.Err?) ==> r == Err(StakesLocked)
      ensures r.Ok? <==>
        pid < |old(pools)| && !old(pools[pid]).disabled && old(Position(user, pid)) != [] &&
        0 < amount <= old(Reachable(Position(user, pid), now))
      ensures r.Err? ==> pools == old(pools) && positions == old(positions) && lastBlock == old(lastBlock)
      ensures r.Ok? ==>
        var p := Accrue(old(pools[pid]), block);
        && r.value == Withdrawn(user, pid, amount) && lastBlock == block
        && |pools| == |old(pools)|
        && pools == old(pools)[pid := pools[pid]]
        && pools[pid] == p.(totalPrincipal := pools[pid].totalPrincipal)
        && pools[pid].totalPrincipal + amount == p.totalPrincipal
        && Settleable(old(Position(user, pid)), p.accRewardPerShare)
        && Walk(old(Position(user, pid)), amount, p.accRewardPerShare, lockFactors, now).Ok?
        && positions == old(positions)[(user, pid) :=
             Walk(old(Position(user, pid)), amount, p.accRewardPerShare, lockFactors, now).value]
      ensures r.Ok? ==> TotalStaked(Position(user, pid)) == old(TotalStaked(Position(user, pid)))
      ensures r.Ok? ==> CurrentStaked(Position(user, pid)) + amount == old(CurrentStaked(Position(user, pid)))
      ensures r.Ok? ==>
        TotalRewards(Position(user, pid)) + PendingReward(user, pid, block).value
          == old(TotalRewards(Position(user, pid)) + PendingReward(user, pid, block).value)
      ensures r.Ok? && amount == old(CurrentStaked(Position(user, pid))) ==>
        PendingReward(user, pid, block).value == 0 &&
        TotalRewards(Position(user, pid)) == old(TotalRewards(Position(user, pid)) + PendingReward(user, pid, block).value)
    {
      if pid >= |pools| {
        return Err(PoolNotFound);
      }
      if pools[pid].disabled {
        return Err(PoolDisabled);
      }
      var es := Position(user, pid);
      if es == [] {
        return Err(NoStakeFound);
      }
      if amount == 0 {
        return Err(InvalidInput);
      }
      var pool := Accrue(pools[pid], block);
      var acc := pool.accRewardPerShare;
      assert Settleable(es, acc);
      WalkSucceedsIff(es, amount, acc, lockFactors, now);
      if amount > CurrentStaked(es) {
        return Err(InsufficientStake);
      }
      var walked := WithdrawEntries(es, amount, acc, lockFactors, now);
      if walked.Err? {
        return Err(walked.error);
      }
      CommitWithdraw(user, pid, amount, block, now, walked.value);
      return Ok(Withdrawn(user, pid, amount));
    }

    /** The committing half of a withdrawal whose walk succeeded with the entries `rest`: the
        pool is accrued and loses `amount` of principal, the position takes `rest`. */
    method CommitWithdraw(user: Address, pid: nat, amount: nat, block: nat, now: nat, rest: seq<Entry>)
      requires Valid() && lastBlock <= block && pid < |pools|
      requires Settleable(Position(user, pid), Accrue(pools[pid], block).accRewardPerShare)
      requires Walk(Position(user, pid), amount, Accrue(pools[pid], block).accRewardPerShare, lockFactors, now) == Ok(rest)
      modifies this
      ensures Valid() && lastBlock == block && lockFactors == old(lockFactors)
      ensures
        var p := Accrue(old(pools[pid]), block);
        && |pools| == |old(pools)|
        && pools == old(pools)[pid := pools[pid]]
        && pools[pid] == p.(totalPrincipal := pools[pid].totalPrincipal)
        && pools[pid].totalPrincipal + amount == p.totalPrincipal
        && positions == old(positions)[(user, pid) := rest]
      ensures TotalStaked(Position(user, pid)) == old(TotalStaked(Position(user, pid)))
      ensures CurrentStaked(Position(user, pid)) + amount == old(CurrentStaked(Position(user, pid)))
      ensures TotalRewards(Position(user, pid)) + PendingReward(user, pid, block).value
                == old(TotalRewards(Position(user, pid)) + PendingReward(user, pid, block).value)
      ensures amount == old(CurrentStaked(Position(user, pid))) ==> PendingReward(user, pid, block).value == 0
    {
      var pool := Accrue(pools[pid], block);
      var acc := pool.accRewardPerShare;
      var es := Position(user, pid);
      WithdrawConsistent(pools, lockFactors, positions, lastBlock, block, user, pid, amount, now);
      WalkMovesAmount(es, amount, acc, lockFactors, now);
      WalkKeepsReward(es, amount, acc, lockFactors, now);
      if amount == CurrentStaked(es) {
        FullWithdrawClears(es, acc, lockFactors, now);
      }
      positions, pools, lastBlock :=
        positions[(user, pid) := rest], pools[pid := pool.(totalPrincipal := pool.totalPrincipal - amount)], block;
      assert Position(user, pid) == rest;
      assert Accrue(pools[pid], block) == pools[pid];
    }
  }

  /** Pending reward seen at a later block is never smaller. */
  lemma PendingGrowsWithBlock(s: MoonveilStake, user: Address, pid: nat, b1: nat, b2: nat)
    requires s.Valid() && s.lastBlock <= b1 <= b2 && pid < |s.pools|
    ensures s.PendingReward(user, pid, b1).value <= s.PendingReward(user, pid, b2).value
  {
    AccrueMonotoneInBlock(s.pools[pid], b1, b2);
    PendingMonotone(s.Position(user, pid), Accrue(s.pools[pid], b1).accRewardPerShare,
                    Accrue(s.pools[pid], b2).accRewardPerShare, s.lockFactors);
  }
}
