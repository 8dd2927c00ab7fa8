/** The test suite's scenarios replayed on the model. Hardhat mines one block per
    transaction, so each call below sits one block after the previous one plus any blocks
    mined in between; block timestamps advance by one second per block. */
module Scenarios {
  import opened Results
  import opened LockSchedule
  import opened Accrual
  import opened Ledger
  import opened Withdrawal
  import opened Staking

  const REWARD_PER_BLOCK: nat := 100
  const ETHER: nat := 1_000_000_000_000_000_000
  const ALICE: Address := 1
  const BOB: Address := 2

  /** The suite's fixture: factors 100 and 200 for lock tiers 0 and 1, then one pool on the
      native coin paying 100 per block, added in block 2. */
  method Deploy() returns (s: MoonveilStake)
    ensures fresh(s) && s.Valid() && s.lastBlock == 2
    ensures s.pools == [NewPool(0, 18, REWARD_PER_BLOCK, 2)]
    ensures s.lockFactors == map[0 := 100, 1 := 200] && s.positions == map[]
  {
    s := new MoonveilStake(1);
    var written := s.SetLockFactors([0, 1], [100, 200]);
    assert [0, 1][..1] == [0] && [100, 200][..1] == [100];
    assert [0][..0] == [] && [100][..0] == [];
    var pid := s.AddPool(0, 18, REWARD_PER_BLOCK, 2);
  }

  /** The factor table the fixture writes. */
  const TABLE: map<nat, nat> := map[0 := 100, 1 := 200]

  /** The fixture's pool in a given accrual state. */
  function PoolAt(acc: nat, total: nat, last: nat): Pool
  {
    Pool(0, 18, REWARD_PER_BLOCK, acc, total, last, false, false)
  }

  /** Accrual over a stretch whose minted reward, scaled and divided among the principal,
      comes to `inc` rounded down. */
  lemma AccrueTo(acc: nat, total: nat, last: nat, block: nat, inc: nat)
    requires 0 < total && last < block
    requires inc * total <= (block - last) * REWARD_PER_BLOCK * PRECISION < (inc + 1) * total
    ensures Accrue(PoolAt(acc, total, last), block) == PoolAt(acc + inc, total, block)
  {
    DivFloor((block - last) * REWARD_PER_BLOCK * PRECISION, total, inc);
  }

  /** The pending reward of a single entry: `units` whole reward units before weighting,
      `v` after. */
  lemma PendingOne(e: Entry, acc: nat, table: map<nat, nat>, units: nat, v: nat)
    requires e.withdrawn <= e.principal && e.snapshot <= acc && e.tier in table
    requires units * PRECISION <= Live(e) * (acc - e.snapshot) < (units + 1) * PRECISION
    requires v * 100 <= units * table[e.tier] < (v + 1) * 100
    ensures Earned(e, acc, table[e.tier]) == v && Pending([e], acc, table) == v
  {
    DivFloor(Live(e) * (acc - e.snapshot), PRECISION, units);
    DivFloor(units * table[e.tier], 100, v);
    assert [e][1..] == [];
  }

  /** Floor division is pinned by its bracket. */
  lemma DivFloor(x: nat, d: nat, q: nat)
    requires 0 < d && q * d <= x < (q + 1) * d
    ensures x / d == q
  {
    var r := x / d;
    DivBracket(x, d);
    if r < q {
      MulMonotone(r + 1, q, d);
      assert false;
    } else if q < r {
      MulMonotone(q + 1, r, d);
      assert false;
    }
  }

  /** Alice stakes 100 in block 3 and, 99 blocks later, has 99 blocks' reward pending. */
  method SplitOpening() returns (s: MoonveilStake, alone: nat)
    ensures fresh(s) && s.Valid() && s.lastBlock == 3 && s.lockFactors == TABLE
    ensures s.pools == [PoolAt(0, 100 * ETHER, 3)]
    ensures s.positions == map[(ALICE, 0) := [Deposit(100 * ETHER, 0, 3, 1003, 0)]]
    ensures alone == 9900
  {
    s := Deploy();
    var r := s.Stake(ALICE, 0, 100 * ETHER, 0, 3, 1003);
    assert r.Ok?;
    var e1 := Deposit(100 * ETHER, 0, 3, 1003, 0);
    assert [] + [e1] == [e1];
    var p := s.PendingReward(ALICE, 0, 102);
    assert s.pools[0] == PoolAt(0, 100 * ETHER, 3);
    AccrueTo(0, 100 * ETHER, 3, 102, 99_000_000);
    PendingOne(e1, 99_000_000, TABLE, 9900, 9900);
    alone := p.value;
  }

  /** Bob stakes an equal 100 in block 103; at block 203 Alice has 100 + 50 blocks' reward
      and Bob 50. */
  method SplitSharing(s: MoonveilStake) returns (first: nat, second: nat)
    requires s.Valid() && s.lastBlock == 3 && s.lockFactors == TABLE
    requires s.pools == [PoolAt(0, 100 * ETHER, 3)]
    requires s.positions == map[(ALICE, 0) := [Deposit(100 * ETHER, 0, 3, 1003, 0)]]
    modifies s
    ensures s.Valid() && s.lastBlock == 103 && s.lockFactors == TABLE
    ensures s.pools == [PoolAt(100_000_000, 200 * ETHER, 103)]
    ensures s.positions == map[(ALICE, 0) := [Deposit(100 * ETHER, 0, 3, 1003, 0)],
                               (BOB, 0) := [Deposit(100 * ETHER, 0, 103, 1103, 100_000_000)]]
    ensures first == 15000 && second == 5000
  {
    var e1 := Deposit(100 * ETHER, 0, 3, 1003, 0);
    var r := s.Stake(BOB, 0, 100 * ETHER, 0, 103, 1103);
    assert r.Ok?;
    AccrueTo(0, 100 * ETHER, 3, 103, 100_000_000);
    var e2 := Deposit(100 * ETHER, 0, 103, 1103, 100_000_000);
    assert [] + [e2] == [e2];
    var p := s.PendingReward(ALICE, 0, 203);
    assert s.pools[0] == PoolAt(100_000_000, 200 * ETHER, 103);
    AccrueTo(100_000_000, 200 * ETHER, 103, 203, 50_000_000);
    PendingOne(e1, 150_000_000, TABLE, 15000, 15000);
    first := p.value;
    p := s.PendingReward(BOB, 0, 203);
    PendingOne(e2, 150_000_000, TABLE, 5000, 5000);
    second := p.value;
  }

  /** Alice withdraws everything in block 204, draining her one entry. */
  method SplitAliceExit(s: MoonveilStake)
    requires s.Valid() && s.lastBlock == 103 && s.lockFactors == TABLE
    requires s.pools == [PoolAt(100_000_000, 200 * ETHER, 103)]
    requires s.positions == map[(ALICE, 0) := [Deposit(100 * ETHER, 0, 3, 1003, 0)],
                                (BOB, 0) := [Deposit(100 * ETHER, 0, 103, 1103, 100_000_000)]]
    modifies s
    ensures s.Valid() && s.lastBlock == 204 && s.lockFactors == TABLE && |s.pools| == 1 && !s.pools[0].disabled
    ensures |s.Position(ALICE, 0)| == 1 && s.Position(ALICE, 0)[0].principal == 100 * ETHER
    ensures s.Position(ALICE, 0)[0].withdrawn == 100 * ETHER
    ensures s.Position(BOB, 0) == [Deposit(100 * ETHER, 0, 103, 1103, 100_000_000)]
  {
    var e1 := Deposit(100 * ETHER, 0, 3, 1003, 0);
    SoleEntry(e1, 1204);
    var r := s.Withdraw(ALICE, 0, 100 * ETHER, 204, 1204);
    assert r.Ok?;
  }

  /** Bob withdraws everything in block 205, draining his one entry. */
  method SplitBobExit(s: MoonveilStake)
    requires s.Valid() && s.lastBlock == 204 && s.lockFactors == TABLE && |s.pools| == 1 && !s.pools[0].disabled
    requires |s.Position(ALICE, 0)| == 1 && s.Position(ALICE, 0)[0].principal == 100 * ETHER
    requires s.Position(ALICE, 0)[0].withdrawn == 100 * ETHER
    requires s.Position(BOB, 0) == [Deposit(100 * ETHER, 0, 103, 1103, 100_000_000)]
    modifies s
    ensures s.Valid() && s.lastBlock == 205 && s.lockFactors == TABLE && |s.pools| == 1
    ensures s.Position(ALICE, 0) == old(s.Position(ALICE, 0))
    ensures |s.Position(BOB, 0)| == 1 && s.Position(BOB, 0)[0].withdrawn == 100 * ETHER
    ensures s.Position(BOB, 0)[0].principal == 100 * ETHER
  {
    var e2 := Deposit(100 * ETHER, 0, 103, 1103, 100_000_000);
    SoleEntry(e2, 1205);
    var r := s.Withdraw(BOB, 0, 100 * ETHER, 205, 1205);
    assert r.Ok?;
  }

  /** Alice withdraws everything in block 204 and Bob in block 205: their reward is all
      credited to their entries, nothing is pending, and Alice's position shows one drained
      entry. */
  method SplitClosing(s: MoonveilStake) returns (firstAfter: nat, secondAfter: nat, view: UserPoolStake)
    requires s.Valid() && s.lastBlock == 103 && s.lockFactors == TABLE
    requires s.pools == [PoolAt(100_000_000, 200 * ETHER, 103)]
    requires s.positions == map[(ALICE, 0) := [Deposit(100 * ETHER, 0, 3, 1003, 0)],
                                (BOB, 0) := [Deposit(100 * ETHER, 0, 103, 1103, 100_000_000)]]
    modifies s
    ensures firstAfter == 0 && secondAfter == 0
    ensures view.totalStaked == 100 * ETHER && view.currentStaked == 0
    ensures |view.stakes| == 1 && view.stakes[0].withdrawn == 100 * ETHER
    ensures view.totalRewards == view.stakes[0].reward
  {
    SplitAliceExit(s);
    SplitBobExit(s);
    var es, bs := s.Position(ALICE, 0), s.Position(BOB, 0);
    assert es[1..] == [] && bs[1..] == [];
    var p := s.PendingReward(ALICE, 0, 205);
    assert Pending(es, Accrue(s.pools[0], 205).accRewardPerShare, TABLE) == 0;
    firstAfter := p.value;
    p := s.PendingReward(BOB, 0, 205);
    assert Pending(bs, Accrue(s.pools[0], 205).accRewardPerShare, TABLE) == 0;
    secondAfter := p.value;
    assert TotalStaked(es) == 100 * ETHER && CurrentStaked(es) == 0 && TotalRewards(es) == es[0].reward;
    view := s.GetUserPoolStake(ALICE, 0);
  }

  /** One depositor alone for 99 blocks earns 99 blocks' reward; after a second equal
      deposit, 100 more blocks split evenly: 15000 against 5000. Full withdrawals credit it
      all, leaving nothing pending. */
  method PendingSplitScenario() returns (alone: nat, first: nat, second: nat, firstAfter: nat, secondAfter: nat,
                                         view: UserPoolStake)
    ensures alone == 99 * REWARD_PER_BLOCK
    ensures first == 15000 && second == 5000
    ensures firstAfter == 0 && secondAfter == 0
    ensures view.totalStaked == 100 * ETHER && view.currentStaked == 0
    ensures |view.stakes| == 1 && view.stakes[0].withdrawn == 100 * ETHER
    ensures view.totalRewards == view.stakes[0].reward
  {
    var s;
    s, alone := SplitOpening();
    first, second := SplitSharing(s);
    firstAfter, secondAfter, view := SplitClosing(s);
  }

  /** Stakes of 50 in blocks 3 and 14: the second entry starts at the accumulator of block 14. */
  method SplitStakes() returns (s: MoonveilStake)
    ensures fresh(s) && s.Valid() && s.lastBlock == 14 && s.lockFactors == TABLE
    ensures s.pools == [PoolAt(22_000_000, 100 * ETHER, 14)]
    ensures s.Position(ALICE, 0) == [Deposit(50 * ETHER, 0, 3, 1003, 0), Deposit(50 * ETHER, 0, 14, 1014, 22_000_000)]
  {
    s := Deploy();
    var r := s.Stake(ALICE, 0, 50 * ETHER, 0, 3, 1003);
    assert r.Ok?;
    var e1 := Deposit(50 * ETHER, 0, 3, 1003, 0);
    assert [] + [e1] == [e1];
    assert s.pools == [PoolAt(0, 50 * ETHER, 3)];
    r := s.Stake(ALICE, 0, 50 * ETHER, 0, 14, 1014);
    assert r.Ok?;
    AccrueTo(0, 50 * ETHER, 3, 14, 22_000_000);
  }

  /** Two stakes of 50 eleven blocks apart earn, together, exactly the reward of every block
      since the first one: 20 blocks, 2000. */
  method SplitStakeScenario() returns (reward: nat)
    ensures reward == (23 - 3) * REWARD_PER_BLOCK
  {
    var s := SplitStakes();
    var e1, e2 := Deposit(50 * ETHER, 0, 3, 1003, 0), Deposit(50 * ETHER, 0, 14, 1014, 22_000_000);
    var p := s.PendingReward(ALICE, 0, 23);
    AccrueTo(22_000_000, 100 * ETHER, 14, 23, 9_000_000);
    assert [e1, e2][1..] == [e2];
    PendingOne(e1, 31_000_000, TABLE, 1550, 1550);
    PendingOne(e2, 31_000_000, TABLE, 450, 450);
    assert Pending([e1, e2], 31_000_000, TABLE) == 1550 + 450;
    reward := p.value;
  }

  /** A tier-1 stake (factor 200) alone for 100 blocks earns twice the minted reward. */
  method LockFactorScenario() returns (reward: nat)
    ensures reward == 100 * REWARD_PER_BLOCK * 2
  {
    var s := Deploy();
    var r := s.Stake(ALICE, 0, 100 * ETHER, 1, 3, 1003);
    assert r.Ok?;
    var e1 := Deposit(100 * ETHER, 1, 3, 1003, 0);
    assert [] + [e1] == [e1];
    var p := s.PendingReward(ALICE, 0, 103);
    assert s.pools[0] == PoolAt(0, 100 * ETHER, 3);
    AccrueTo(0, 100 * ETHER, 3, 103, 100_000_000);
    PendingOne(e1, 100_000_000, TABLE, 10000, 20000);
    reward := p.value;
  }

  /** Alice stakes 100 in block 3; 50 blocks later 5000 is pending. */
  method PartialOpening() returns (s: MoonveilStake, before: nat)
    ensures fresh(s) && s.Valid() && s.lastBlock == 3 && s.lockFactors == TABLE
    ensures s.pools == [PoolAt(0, 100 * ETHER, 3)]
    ensures s.positions == map[(ALICE, 0) := [Deposit(100 * ETHER, 0, 3, 1003, 0)]]
    ensures before == 50 * REWARD_PER_BLOCK
  {
    s := Deploy();
    var r := s.Stake(ALICE, 0, 100 * ETHER, 0, 3, 1003);
    assert r.Ok?;
    var e1 := Deposit(100 * ETHER, 0, 3, 1003, 0);
    assert [] + [e1] == [e1];
    var p := s.PendingReward(ALICE, 0, 53);
    assert s.pools[0] == PoolAt(0, 100 * ETHER, 3);
    AccrueTo(0, 100 * ETHER, 3, 53, 50_000_000);
    PendingOne(e1, 50_000_000, TABLE, 5000, 5000);
    before := p.value;
  }

  /** She withdraws 50 in block 54: the withdrawn half's 51 blocks of reward are credited to
      the entry, which keeps its snapshot. */
  method PartialHalf(s: MoonveilStake) returns (event: Result<Event>)
    requires s.Valid() && s.lastBlock == 3 && s.lockFactors == TABLE
    requires s.pools == [PoolAt(0, 100 * ETHER, 3)]
    requires s.positions == map[(ALICE, 0) := [Deposit(100 * ETHER, 0, 3, 1003, 0)]]
    modifies s
    ensures s.Valid() && s.lastBlock == 54 && s.lockFactors == TABLE
    ensures event == Ok(Withdrawn(ALICE, 0, 50 * ETHER))
    ensures s.pools == [PoolAt(51_000_000, 50 * ETHER, 54)]
    ensures s.positions == map[(ALICE, 0) := [Deposit(100 * ETHER, 0, 3, 1003, 0).(reward := 2550, withdrawn := 50 * ETHER)]]
  {
    var e1 := Deposit(100 * ETHER, 0, 3, 1003, 0);
    SoleEntry(e1, 1054);
    event := s.Withdraw(ALICE, 0, 50 * ETHER, 54, 1054);
    assert event.Ok?;
    AccrueTo(0, 100 * ETHER, 3, 54, 51_000_000);
    var x := e1.(reward := 2550, withdrawn := 50 * ETHER);
    PendingOne(e1, 51_000_000, TABLE, 5100, 5100);
    PendingOne(e1.(withdrawn := 50 * ETHER), 51_000_000, TABLE, 2550, 2550);
    assert Take(e1, 50 * ETHER, 51_000_000, 100) == x;
    assert [e1][1..] == [] && [x] + [] == [x];
    assert Walk([e1], 50 * ETHER, 51_000_000, TABLE, 1054) == Ok([x]);
  }

  /** She withdraws 50 in block 54, which credits the withdrawn half's 51 blocks of reward to
      the entry; 50 blocks later her pending reward covers the remaining half's 101 blocks. */
  method PartialWithdrawal(s: MoonveilStake) returns (event: Result<Event>, credited: nat, after: nat, view: UserPoolStake)
    requires s.Valid() && s.lastBlock == 3 && s.lockFactors == TABLE
    requires s.pools == [PoolAt(0, 100 * ETHER, 3)]
    requires s.positions == map[(ALICE, 0) := [Deposit(100 * ETHER, 0, 3, 1003, 0)]]
    modifies s
    ensures event == Ok(Withdrawn(ALICE, 0, 50 * ETHER))
    ensures view.currentStaked == 50 * ETHER && |view.stakes| == 1 && view.stakes[0].withdrawn == 50 * ETHER
    ensures credited == view.stakes[0].reward && after > 0
    ensures credited + after == 101 * REWARD_PER_BLOCK
  {
    event := PartialHalf(s);
    var x := Deposit(100 * ETHER, 0, 3, 1003, 0).(reward := 2550, withdrawn := 50 * ETHER);
    assert s.Position(ALICE, 0) == [x];
    var p := s.PendingReward(ALICE, 0, 104);
    AccrueTo(51_000_000, 50 * ETHER, 54, 104, 100_000_000);
    PendingOne(x, 151_000_000, TABLE, 7550, 7550);
    after := p.value;
    view := s.GetUserPoolStake(ALICE, 0);
    credited := view.stakes[0].reward;
  }

  /** Reward is not lost across a partial withdrawal: credited plus pending equals the reward
      of all 101 blocks. */
  method PartialWithdrawScenario() returns (before: nat, event: Result<Event>, credited: nat, after: nat, view: UserPoolStake)
    ensures before == 50 * REWARD_PER_BLOCK
    ensures event == Ok(Withdrawn(ALICE, 0, 50 * ETHER))
    ensures view.currentStaked == 50 * ETHER && |view.stakes| == 1 && view.stakes[0].withdrawn == 50 * ETHER
    ensures credited == view.stakes[0].reward && after > 0
    ensures credited + after == 101 * REWARD_PER_BLOCK
  {
    var s;
    s, before := PartialOpening();
    event, credited, after, view := PartialWithdrawal(s);
  }

  /** A tier-1 entry is locked for a week: a full or a partial request fails while it is
      locked and leaves the position as it was; once the week has passed the full request
      succeeds. */
  method LockScenario() returns (full: Result<Event>, partial: Result<Event>, later: Result<Event>)
    ensures full == Err(StakesLocked) && partial == Err(StakesLocked)
    ensures later == Ok(Withdrawn(ALICE, 0, 100 * ETHER))
  {
    var s := Deploy();
    var r := s.Stake(ALICE, 0, 100 * ETHER, 1, 3, 1003);
    assert r.Ok?;
    var e1 := Deposit(100 * ETHER, 1, 3, 1003, 0);
    assert [] + [e1] == [e1];
    assert e1.lockExpiry == 1003 + WEEK;
    assert Reachable([e1], 1054) == 0;
    full := s.Withdraw(ALICE, 0, 100 * ETHER, 54, 1054);
    partial := s.Withdraw(ALICE, 0, 50 * ETHER, 55, 1055);
    assert s.Position(ALICE, 0) == [e1];
    SoleEntry(e1, 1005 + WEEK);
    later := s.Withdraw(ALICE, 0, 100 * ETHER, 56, 1005 + WEEK);
  }

  /** Disabling freezes the pool for stakes and withdrawals alike; enabling it again lets
      stakes through. */
  method DisableScenario() returns (stakeDisabled: Result<Event>, withdrawDisabled: Result<Event>, stakeEnabled: Result<Event>)
    ensures stakeDisabled == Err(PoolDisabled) && withdrawDisabled == Err(PoolDisabled)
    ensures stakeEnabled == Ok(Staked(ALICE, 0, 100 * ETHER, 0))
  {
    var s := Deploy();
    var r := s.Stake(ALICE, 0, 100 * ETHER, 0, 3, 1003);
    var done := s.DisablePool(0);
    withdrawDisabled := s.Withdraw(ALICE, 0, 50 * ETHER, 54, 1054);
    stakeDisabled := s.Stake(ALICE, 0, 100 * ETHER, 0, 55, 1055);
    done := s.EnablePool(0);
    stakeEnabled := s.Stake(ALICE, 0, 100 * ETHER, 0, 57, 1057);
  }

  /** Blocking refuses new stakes; unblocking lets them through again. */
  method BlockStakeScenario() returns (stakeBlocked: Result<Event>, stakeUnblocked: Result<Event>)
    ensures stakeBlocked == Err(PoolBlocked)
    ensures stakeUnblocked == Ok(Staked(ALICE, 0, 100 * ETHER, 0))
  {
    var s := Deploy();
    var done := s.BlockPool(0);
    stakeBlocked := s.Stake(ALICE, 0, 100 * ETHER, 0, 3, 1003);
    done := s.UnblockPool(0);
    stakeUnblocked := s.Stake(ALICE, 0, 100 * ETHER, 0, 5, 1005);
  }

  /** Blocking still lets a depositor take principal out. */
  method BlockWithdrawScenario() returns (withdrawBlocked: Result<Event>, current: nat)
    ensures withdrawBlocked == Ok(Withdrawn(ALICE, 0, 50 * ETHER)) && current == 50 * ETHER
  {
    var s := Deploy();
    var r := s.Stake(ALICE, 0, 100 * ETHER, 0, 3, 1003);
    assert r.Ok?;
    var e1 := Deposit(100 * ETHER, 0, 3, 1003, 0);
    assert [] + [e1] == [e1];
    assert CurrentStaked([e1]) == 100 * ETHER;
    var done := s.BlockPool(0);
    SoleEntry(e1, 1055);
    withdrawBlocked := s.Withdraw(ALICE, 0, 50 * ETHER, 55, 1055);
    current := s.GetUserPoolStake(ALICE, 0).currentStaked;
  }

  /** Withdrawing with no entry fails with "No stake found"; asking for more than is staked
      fails with "Insufficient staked amount". */
  method WithdrawErrorScenario() returns (noStake: Result<Event>, tooMuch: Result<Event>)
    ensures noStake == Err(NoStakeFound) && tooMuch == Err(InsufficientStake)
  {
    var s := Deploy();
    noStake := s.Withdraw(ALICE, 0, 100 * ETHER, 3, 1003);
    var r := s.Stake(ALICE, 0, 100 * ETHER, 0, 4, 1004);
    assert r.Ok?;
    var e1 := Deposit(100 * ETHER, 0, 4, 1004, 0);
    assert [] + [e1] == [e1];
    assert CurrentStaked([e1]) == 100 * ETHER;
    tooMuch := s.Withdraw(ALICE, 0, 200 * ETHER, 55, 1055);
  }

  /** Stake emits the request's values; a full withdrawal emits its amount and leaves
      nothing staked. */
  method FullWithdrawScenario() returns (staked: Result<Event>, withdrawn: Result<Event>, current: nat)
    ensures staked == Ok(Staked(ALICE, 0, 100 * ETHER, 0))
    ensures withdrawn == Ok(Withdrawn(ALICE, 0, 100 * ETHER)) && current == 0
  {
    var s := Deploy();
    staked := s.Stake(ALICE, 0, 100 * ETHER, 0, 3, 1003);
    var e1 := Deposit(100 * ETHER, 0, 3, 1003, 0);
    assert [] + [e1] == [e1];
    SoleEntry(e1, 1104);
    withdrawn := s.Withdraw(ALICE, 0, 100 * ETHER, 104, 1104);
    current := s.GetUserPoolStake(ALICE, 0).currentStaked;
  }

  /** Alice stakes 100 in block 3 and takes 30 back in block 54. */
  method RepeatedOpening() returns (s: MoonveilStake, first: Result<Event>)
    ensures fresh(s) && s.Valid() && s.lastBlock == 54 && s.lockFactors == TABLE
    ensures first == Ok(Withdrawn(ALICE, 0, 30 * ETHER)) && |s.pools| == 1 && !s.pools[0].disabled
    ensures |s.Position(ALICE, 0)| == 1 && s.Position(ALICE, 0)[0].principal == 100 * ETHER
    ensures s.Position(ALICE, 0)[0].withdrawn == 30 * ETHER && s.Position(ALICE, 0)[0].lockExpiry == 1003
  {
    s := Deploy();
    var r := s.Stake(ALICE, 0, 100 * ETHER, 0, 3, 1003);
    assert r.Ok?;
    var e1 := Deposit(100 * ETHER, 0, 3, 1003, 0);
    assert [] + [e1] == [e1];
    SoleEntry(e1, 1054);
    first := s.Withdraw(ALICE, 0, 30 * ETHER, 54, 1054);
  }

  /** Two partial withdrawals of 30 and 20 accumulate on the one entry. */
  method RepeatedWithdrawScenario() returns (first: Result<Event>, second: Result<Event>, view: UserPoolStake)
    ensures first == Ok(Withdrawn(ALICE, 0, 30 * ETHER)) && second == Ok(Withdrawn(ALICE, 0, 20 * ETHER))
    ensures view.currentStaked == 50 * ETHER && |view.stakes| == 1 && view.stakes[0].withdrawn == 50 * ETHER
  {
    var s;
    s, first := RepeatedOpening();
    var es := s.Position(ALICE, 0);
    assert es[1..] == [];
    assert Reachable(es, 1065) == 70 * ETHER;
    second := s.Withdraw(ALICE, 0, 20 * ETHER, 65, 1065);
    assert second.Ok?;
    view := s.GetUserPoolStake(ALICE, 0);
  }

  /** Alice stakes 100 in block 3 and 50 in block 54. */
  method DrainOpening() returns (s: MoonveilStake)
    ensures fresh(s) && s.Valid() && s.lastBlock == 54 && s.lockFactors == TABLE
    ensures s.Position(ALICE, 0) == [Deposit(100 * ETHER, 0, 3, 1003, 0), Deposit(50 * ETHER, 0, 54, 1054, 51_000_000)]
    ensures CurrentStaked(s.Position(ALICE, 0)) == 150 * ETHER
    ensures |s.pools| == 1 && !s.pools[0].disabled
  {
    s := Deploy();
    var r := s.Stake(ALICE, 0, 100 * ETHER, 0, 3, 1003);
    assert r.Ok?;
    var e1 := Deposit(100 * ETHER, 0, 3, 1003, 0);
    assert [] + [e1] == [e1];
    assert s.pools == [PoolAt(0, 100 * ETHER, 3)];
    r := s.Stake(ALICE, 0, 50 * ETHER, 0, 54, 1054);
    assert r.Ok?;
    AccrueTo(0, 100 * ETHER, 3, 54, 51_000_000);
  }

  /** A withdrawal of 50 in block 105 comes out of the older entry alone. */
  method DrainFirst(s: MoonveilStake)
    requires s.Valid() && s.lastBlock == 54 && s.lockFactors == TABLE
    requires s.Position(ALICE, 0) == [Deposit(100 * ETHER, 0, 3, 1003, 0), Deposit(50 * ETHER, 0, 54, 1054, 51_000_000)]
    requires CurrentStaked(s.Position(ALICE, 0)) == 150 * ETHER
    requires |s.pools| == 1 && !s.pools[0].disabled
    modifies s
    ensures s.Valid() && s.lastBlock == 105 && s.lockFactors == TABLE && |s.pools| == 1 && !s.pools[0].disabled
    ensures |s.Position(ALICE, 0)| == 2 && s.Position(ALICE, 0)[0].principal == 100 * ETHER
    ensures s.Position(ALICE, 0)[0].withdrawn == 50 * ETHER && s.Position(ALICE, 0)[0].lockExpiry == 1003
    ensures s.Position(ALICE, 0)[1] == Deposit(50 * ETHER, 0, 54, 1054, 51_000_000)
  {
    var e1, e2 := Deposit(100 * ETHER, 0, 3, 1003, 0), Deposit(50 * ETHER, 0, 54, 1054, 51_000_000);
    assert [e1, e2][1..] == [e2] && [e2][1..] == [];
    SoleEntry(e2, 1105);
    assert Reachable([e1, e2], 1105) == 150 * ETHER;
    var r := s.Withdraw(ALICE, 0, 50 * ETHER, 105, 1105);
    assert r.Ok?;
    var acc := s.pools[0].accRewardPerShare;
    assert Walk([e2], 0, acc, TABLE, 1105) == Ok([e2]);
    var x1 := Take(e1, 50 * ETHER, acc, 100);
    assert Walk([e1, e2], 50 * ETHER, acc, TABLE, 1105) == Ok([x1] + [e2]);
  }

  /** A withdrawal of 100 in block 156 takes the older entry's last 50 and all of the newer
      entry. */
  method DrainSecond(s: MoonveilStake) returns (current: nat)
    requires s.Valid() && s.lastBlock == 105 && s.lockFactors == TABLE && |s.pools| == 1 && !s.pools[0].disabled
    requires |s.Position(ALICE, 0)| == 2 && s.Position(ALICE, 0)[0].principal == 100 * ETHER
    requires s.Position(ALICE, 0)[0].withdrawn == 50 * ETHER && s.Position(ALICE, 0)[0].lockExpiry == 1003
    requires s.Position(ALICE, 0)[1] == Deposit(50 * ETHER, 0, 54, 1054, 51_000_000)
    modifies s
    ensures current == 0
  {
    var es := s.Position(ALICE, 0);
    var tail := es[1..];
    assert tail == [es[1]] && tail[1..] == [];
    assert Live(es[0]) == 50 * ETHER && Live(tail[0]) == 50 * ETHER && 1156 >= tail[0].lockExpiry;
    assert CurrentStaked(tail) == Live(tail[0]) + CurrentStaked(tail[1..]) == 50 * ETHER;
    assert Reachable(tail, 1156) == Live(tail[0]) + Reachable(tail[1..], 1156) == 50 * ETHER;
    assert CurrentStaked(es) == 100 * ETHER;
    assert Reachable(es, 1156) == 100 * ETHER;
    var r := s.Withdraw(ALICE, 0, 100 * ETHER, 156, 1156);
    current := s.GetUserPoolStake(ALICE, 0).currentStaked;
  }

  /** Stakes of 100 and 50, then withdrawals of 50 and 100, drain both entries. */
  method DrainScenario() returns (current: nat)
    ensures current == 0
  {
    var s := DrainOpening();
    DrainFirst(s);
    current := DrainSecond(s);
  }

  /** Alice stakes 100 in block 3 and Bob 200 in block 4. */
  method SharedStakes() returns (s: MoonveilStake)
    ensures fresh(s) && s.Valid() && s.lastBlock == 4 && s.lockFactors == TABLE
    ensures s.pools == [PoolAt(1_000_000, 300 * ETHER, 4)]
    ensures s.positions == map[(ALICE, 0) := [Deposit(100 * ETHER, 0, 3, 1003, 0)],
                               (BOB, 0) := [Deposit(200 * ETHER, 0, 4, 1004, 1_000_000)]]
  {
    s := Deploy();
    var r := s.Stake(ALICE, 0, 100 * ETHER, 0, 3, 1003);
    assert r.Ok?;
    var eA := Deposit(100 * ETHER, 0, 3, 1003, 0);
    assert [] + [eA] == [eA];
    assert s.pools == [PoolAt(0, 100 * ETHER, 3)];
    r := s.Stake(BOB, 0, 200 * ETHER, 0, 4, 1004);
    assert r.Ok?;
    AccrueTo(0, 100 * ETHER, 3, 4, 1_000_000);
    var eB := Deposit(200 * ETHER, 0, 4, 1004, 1_000_000);
    assert [] + [eB] == [eB];
  }

  /** After both stakes, in block 54, both users have reward pending. */
  method SharedOpening() returns (s: MoonveilStake, reward1: nat, reward2: nat)
    ensures fresh(s) && s.Valid() && s.lastBlock == 4 && s.lockFactors == TABLE
    ensures s.pools == [PoolAt(1_000_000, 300 * ETHER, 4)]
    ensures s.positions == map[(ALICE, 0) := [Deposit(100 * ETHER, 0, 3, 1003, 0)],
                               (BOB, 0) := [Deposit(200 * ETHER, 0, 4, 1004, 1_000_000)]]
    ensures reward1 == 1766 && reward2 == 3333
  {
    s := SharedStakes();
    var eA := Deposit(100 * ETHER, 0, 3, 1003, 0);
    var eB := Deposit(200 * ETHER, 0, 4, 1004, 1_000_000);
    assert s.Position(ALICE, 0) == [eA] && s.Position(BOB, 0) == [eB];
    var p := s.PendingReward(ALICE, 0, 54);
    AccrueTo(1_000_000, 300 * ETHER, 4, 54, 16_666_666);
    PendingOne(eA, 17_666_666, TABLE, 1766, 1766);
    reward1 := p.value;
    p := s.PendingReward(BOB, 0, 54);
    PendingOne(eB, 17_666_666, TABLE, 3333, 3333);
    reward2 := p.value;
  }

  /** Alice withdraws 50 in block 55: her entry is credited the withdrawn half's reward
      and keeps its snapshot. */
  method SharedAliceHalf(s: MoonveilStake)
    requires s.Valid() && s.lastBlock == 4 && s.lockFactors == TABLE
    requires s.pools == [PoolAt(1_000_000, 300 * ETHER, 4)]
    requires s.positions == map[(ALICE, 0) := [Deposit(100 * ETHER, 0, 3, 1003, 0)],
                                (BOB, 0) := [Deposit(200 * ETHER, 0, 4, 1004, 1_000_000)]]
    modifies s
    ensures s.Valid() && s.lastBlock == 55 && s.lockFactors == TABLE
    ensures s.pools == [PoolAt(18_000_000, 250 * ETHER, 55)]
    ensures s.positions ==
      map[(ALICE, 0) := [Deposit(100 * ETHER, 0, 3, 1003, 0).(reward := 900, withdrawn := 50 * ETHER)],
          (BOB, 0) := [Deposit(200 * ETHER, 0, 4, 1004, 1_000_000)]]
  {
    var eA := Deposit(100 * ETHER, 0, 3, 1003, 0);
    SoleEntry(eA, 1055);
    AccrueTo(1_000_000, 300 * ETHER, 4, 55, 17_000_000);
    AliceHalfWalk();
    var r := s.Withdraw(ALICE, 0, 50 * ETHER, 55, 1055);
    assert r.Ok?;
  }

  /** The walk of Alice's half withdrawal in block 55 credits her entry 900. */
  lemma AliceHalfWalk()
    ensures var eA := Deposit(100 * ETHER, 0, 3, 1003, 0);
      Walk([eA], 50 * ETHER, 18_000_000, TABLE, 1055) == Ok([eA.(reward := 900, withdrawn := 50 * ETHER)])
  {
    var eA := Deposit(100 * ETHER, 0, 3, 1003, 0);
    assert [eA][1..] == [];
    PendingOne(eA, 18_000_000, TABLE, 1800, 1800);
    PendingOne(eA.(withdrawn := 50 * ETHER), 18_000_000, TABLE, 900, 900);
    var xA := eA.(reward := 900, withdrawn := 50 * ETHER);
    assert Take(eA, 50 * ETHER, 18_000_000, 100) == xA;
    assert [xA] + [] == [xA];
  }

  /** Bob withdraws 100 in block 56: his entry is credited the withdrawn half's reward and
      keeps its snapshot. */
  method SharedBobHalf(s: MoonveilStake)
    requires s.Valid() && s.lastBlock == 55 && s.lockFactors == TABLE
    requires s.pools == [PoolAt(18_000_000, 250 * ETHER, 55)]
    requires s.positions ==
      map[(ALICE, 0) := [Deposit(100 * ETHER, 0, 3, 1003, 0).(reward := 900, withdrawn := 50 * ETHER)],
          (BOB, 0) := [Deposit(200 * ETHER, 0, 4, 1004, 1_000_000)]]
    modifies s
    ensures s.Valid() && s.lastBlock == 56 && s.lockFactors == TABLE
    ensures s.pools == [PoolAt(18_400_000, 150 * ETHER, 56)]
    ensures s.positions ==
      map[(ALICE, 0) := [Deposit(100 * ETHER, 0, 3, 1003, 0).(reward := 900, withdrawn := 50 * ETHER)],
          (BOB, 0) := [Deposit(200 * ETHER, 0, 4, 1004, 1_000_000).(reward := 1740, withdrawn := 100 * ETHER)]]
  {
    var eB := Deposit(200 * ETHER, 0, 4, 1004, 1_000_000);
    assert [eB][1..] == [];
    SoleEntry(eB, 1056);
    var r := s.Withdraw(BOB, 0, 100 * ETHER, 56, 1056);
    assert r.Ok?;
    AccrueTo(18_000_000, 250 * ETHER, 55, 56, 400_000);
    PendingOne(eB, 18_400_000, TABLE, 3480, 3480);
    PendingOne(eB.(withdrawn := 100 * ETHER), 18_400_000, TABLE, 1740, 1740);
    var xB := eB.(reward := 1740, withdrawn := 100 * ETHER);
    assert Take(eB, 100 * ETHER, 18_400_000, 100) == xB;
    assert [xB] + [] == [xB];
    assert Walk([eB], 100 * ETHER, 18_400_000, TABLE, 1056) == Ok([xB]);
  }

  /** Alice withdraws 50 in block 55 and Bob 100 in block 56. Each keeps reward pending on
      the half still staked, in the very block of the withdrawal. */
  method SharedWithdrawal(s: MoonveilStake) returns (newReward1: nat, newReward2: nat)
    requires s.Valid() && s.lastBlock == 4 && s.lockFactors == TABLE
    requires s.pools == [PoolAt(1_000_000, 300 * ETHER, 4)]
    requires s.positions == map[(ALICE, 0) := [Deposit(100 * ETHER, 0, 3, 1003, 0)],
                                (BOB, 0) := [Deposit(200 * ETHER, 0, 4, 1004, 1_000_000)]]
    modifies s
    ensures s.Valid() && s.lastBlock == 56 && s.lockFactors == TABLE
    ensures s.pools == [PoolAt(18_400_000, 150 * ETHER, 56)]
    ensures s.positions ==
      map[(ALICE, 0) := [Deposit(100 * ETHER, 0, 3, 1003, 0).(reward := 900, withdrawn := 50 * ETHER)],
          (BOB, 0) := [Deposit(200 * ETHER, 0, 4, 1004, 1_000_000).(reward := 1740, withdrawn := 100 * ETHER)]]
    ensures newReward1 == 920 && newReward2 == 1740
  {
    SharedAliceHalf(s);
    SharedBobHalf(s);
    var xA := Deposit(100 * ETHER, 0, 3, 1003, 0).(reward := 900, withdrawn := 50 * ETHER);
    var xB := Deposit(200 * ETHER, 0, 4, 1004, 1_000_000).(reward := 1740, withdrawn := 100 * ETHER);
    assert s.Position(ALICE, 0) == [xA] && s.Position(BOB, 0) == [xB];
    var p := s.PendingReward(ALICE, 0, 56);
    PendingOne(xA, 18_400_000, TABLE, 920, 920);
    newReward1 := p.value;
    p := s.PendingReward(BOB, 0, 56);
    PendingOne(xB, 18_400_000, TABLE, 1740, 1740);
    newReward2 := p.value;
  }

  /** Two users stake, wait, and each withdraws half: every pending reward read along the way
      is positive. */
  method SharedWithdrawScenario() returns (reward1: nat, reward2: nat, newReward1: nat, newReward2: nat)
    ensures reward1 > 0 && reward2 > 0
    ensures newReward1 > 0 && newReward2 > 0
  {
    var s;
    s, reward1, reward2 := SharedOpening();
    newReward1, newReward2 := SharedWithdrawal(s);
  }

  /** A position of one entry whose lock has passed can reach all its live principal. */
  lemma SoleEntry(e: Entry, now: nat)
    requires e.withdrawn <= e.principal && e.lockExpiry <= now
    ensures Reachable([e], now) == Live(e) && CurrentStaked([e]) == Live(e)
  {
    assert [e][1..] == [];
  }

  /** Alice withdraws her other half in block 107. */
  method ConcurrentAliceExit(s: MoonveilStake)
    requires s.Valid() && s.lastBlock == 56 && s.lockFactors == TABLE
    requires s.pools == [PoolAt(18_400_000, 150 * ETHER, 56)]
    requires s.positions ==
      map[(ALICE, 0) := [Deposit(100 * ETHER, 0, 3, 1003, 0).(reward := 900, withdrawn := 50 * ETHER)],
          (BOB, 0) := [Deposit(200 * ETHER, 0, 4, 1004, 1_000_000).(reward := 1740, withdrawn := 100 * ETHER)]]
    modifies s
    ensures s.Valid() && s.lastBlock == 107 && s.lockFactors == TABLE && |s.pools| == 1 && !s.pools[0].disabled
    ensures CurrentStaked(s.Position(ALICE, 0)) == 0
    ensures s.Position(BOB, 0) == [Deposit(200 * ETHER, 0, 4, 1004, 1_000_000).(reward := 1740, withdrawn := 100 * ETHER)]
  {
    var xA := Deposit(100 * ETHER, 0, 3, 1003, 0).(reward := 900, withdrawn := 50 * ETHER);
    SoleEntry(xA, 1107);
    var r := s.Withdraw(ALICE, 0, 50 * ETHER, 107, 1107);
    assert r.Ok?;
  }

  /** Bob withdraws his other half in block 108, leaving neither user anything staked. */
  method ConcurrentBobExit(s: MoonveilStake)
    requires s.Valid() && s.lastBlock == 107 && s.lockFactors == TABLE && |s.pools| == 1 && !s.pools[0].disabled
    requires CurrentStaked(s.Position(ALICE, 0)) == 0
    requires s.Position(BOB, 0) == [Deposit(200 * ETHER, 0, 4, 1004, 1_000_000).(reward := 1740, withdrawn := 100 * ETHER)]
    modifies s
    ensures s.Valid()
    ensures CurrentStaked(s.Position(ALICE, 0)) == 0 && CurrentStaked(s.Position(BOB, 0)) == 0
  {
    var xB := Deposit(200 * ETHER, 0, 4, 1004, 1_000_000).(reward := 1740, withdrawn := 100 * ETHER);
    SoleEntry(xB, 1108);
    var before := s.Position(ALICE, 0);
    var r := s.Withdraw(BOB, 0, 100 * ETHER, 108, 1108);
    assert r.Ok?;
    assert s.Position(ALICE, 0) == before;
  }

  /** 50 blocks after the half withdrawals both users have reward pending; withdrawing the
      other halves then leaves neither anything staked. */
  method ConcurrentClosing(s: MoonveilStake) returns (reward1: nat, reward2: nat, current1: nat, current2: nat)
    requires s.Valid() && s.lastBlock == 56 && s.lockFactors == TABLE
    requires s.pools == [PoolAt(18_400_000, 150 * ETHER, 56)]
    requires s.positions ==
      map[(ALICE, 0) := [Deposit(100 * ETHER, 0, 3, 1003, 0).(reward := 900, withdrawn := 50 * ETHER)],
          (BOB, 0) := [Deposit(200 * ETHER, 0, 4, 1004, 1_000_000).(reward := 1740, withdrawn := 100 * ETHER)]]
    modifies s
    ensures reward1 == 2586 && reward2 == 5073
    ensures current1 == 0 && current2 == 0
  {
    var xA := Deposit(100 * ETHER, 0, 3, 1003, 0).(reward := 900, withdrawn := 50 * ETHER);
    var xB := Deposit(200 * ETHER, 0, 4, 1004, 1_000_000).(reward := 1740, withdrawn := 100 * ETHER);
    assert s.Position(ALICE, 0) == [xA] && s.Position(BOB, 0) == [xB];
    var p := s.PendingReward(ALICE, 0, 106);
    AccrueTo(18_400_000, 150 * ETHER, 56, 106, 33_333_333);
    PendingOne(xA, 51_733_333, TABLE, 2586, 2586);
    reward1 := p.value;
    p := s.PendingReward(BOB, 0, 106);
    PendingOne(xB, 51_733_333, TABLE, 5073, 5073);
    reward2 := p.value;
    ConcurrentAliceExit(s);
    ConcurrentBobExit(s);
    current1 := s.GetUserPoolStake(ALICE, 0).currentStaked;
    current2 := s.GetUserPoolStake(BOB, 0).currentStaked;
  }

  /** Two users stake, each withdraws half, then the other half: rewards stay positive in
      between and both end with nothing staked. */
  method ConcurrentScenario() returns (reward1: nat, reward2: nat, current1: nat, current2: nat)
    ensures reward1 > 0 && reward2 > 0
    ensures current1 == 0 && current2 == 0
  {
    var s, r1, r2 := SharedOpening();
    r1, r2 := SharedWithdrawal(s);
    reward1, reward2, current1, current2 := ConcurrentClosing(s);
  }
}
