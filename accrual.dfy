/** The reward-accrual engine: a pool's reward rate, its scaled-integer accumulator
    `accRewardPerShare`, and the step that brings the accumulator up to the current block. */
module Accrual {

  /** Scale of the accumulator. The contract's own constant is not visible; 10^24 makes every
      reward figure of the test suite exact (one block of 100 reward units over 2 * 10^20
      principal is 5 * 10^5 accumulator units). */
  const PRECISION: nat := 1_000_000_000_000_000_000_000_000

  datatype Pool = Pool(
    token: nat,              // address of the staked asset (0 is the native coin)
    decimals: nat,
    rewardPerBlock: nat,
    accRewardPerShare: nat,  // reward per unit of principal, times PRECISION
    totalPrincipal: nat,     // live principal of every entry in the pool
    lastAccrualBlock: nat,
    disabled: bool,
    blocked: bool)

  /** A freshly added pool: nothing staked, accumulator at zero, accrual starting now. */
  function NewPool(token: nat, decimals: nat, rewardPerBlock: nat, block: nat): (p: Pool)
    ensures p.accRewardPerShare == 0 && p.totalPrincipal == 0 && p.lastAccrualBlock == block
    ensures !p.disabled && !p.blocked && p.rewardPerBlock == rewardPerBlock
  {
    Pool(token, decimals, rewardPerBlock, 0, 0, block, false, false)
  }

  /** Reward the pool releases between its last accrual and `block`. */
  function Minted(p: Pool, block: nat): nat
    requires p.lastAccrualBlock <= block
  {
    (block - p.lastAccrualBlock) * p.rewardPerBlock
  }

  /** Brings the accumulator up to `block`. The increment is the minted reward per unit of
      principal, rounded down; an empty pool only moves its accrual block, so the reward of
      that interval is forfeited. */
  function Accrue(p: Pool, block: nat): (r: Pool)
    requires p.lastAccrualBlock <= block
    ensures r == p.(accRewardPerShare := r.accRewardPerShare, lastAccrualBlock := block)
    ensures r.accRewardPerShare >= p.accRewardPerShare
    ensures p.totalPrincipal == 0 ==> r.accRewardPerShare == p.accRewardPerShare
  {
    if block == p.lastAccrualBlock then p
    else if p.totalPrincipal == 0 then p.(lastAccrualBlock := block)
    else
      var inc := Minted(p, block) * PRECISION / p.totalPrincipal;
      p.(accRewardPerShare := p.accRewardPerShare + inc, lastAccrualBlock := block)
  }

  /** The accumulator increment is the minted reward per unit of principal, rounded down:
      it hands out no more than was minted, and less than one unit of principal's worth short. */
  lemma AccrueBracket(p: Pool, block: nat)
    requires p.lastAccrualBlock <= block && p.totalPrincipal > 0
    ensures var d := Accrue(p, block).accRewardPerShare - p.accRewardPerShare;
      d * p.totalPrincipal <= Minted(p, block) * PRECISION < (d + 1) * p.totalPrincipal
  {
    DivBracket(Minted(p, block) * PRECISION, p.totalPrincipal);
  }

  /** Floor division is bracketed by the divisor. */
  lemma DivBracket(x: nat, d: nat)
    requires d > 0
    ensures (x / d) * d <= x < (x / d + 1) * d
  {
  }

  /** A later view of the same pool never shows a smaller accumulator. */
  lemma {:induction false} AccrueMonotoneInBlock(p: Pool, b1: nat, b2: nat)
    requires p.lastAccrualBlock <= b1 <= b2
    ensures Accrue(p, b1).accRewardPerShare <= Accrue(p, b2).accRewardPerShare
  {
    if p.totalPrincipal > 0 && b1 > p.lastAccrualBlock {
      var x1, x2 := Minted(p, b1) * PRECISION, Minted(p, b2) * PRECISION;
      assert x1 <= x2 by {
        assert Minted(p, b1) <= Minted(p, b2) by {
          MulMonotone(b1 - p.lastAccrualBlock, b2 - p.lastAccrualBlock, p.rewardPerBlock);
        }
        MulMonotone(Minted(p, b1), Minted(p, b2), PRECISION);
      }
      DivMonotone(x1, x2, p.totalPrincipal);
    }
  }

  lemma MulMonotone(a: int, b: int, c: nat)
    ensures a <= b ==> a * c <= b * c
  {
  }

  lemma {:induction false} DivMonotone(x: nat, y: nat, d: nat)
    requires x <= y && d > 0
    ensures x / d <= y / d
  {
    DivBracket(x, d);
    DivBracket(y, d);
    if x / d > y / d {
      MulMonotone(y / d + 1, x / d, d);
      assert false;
    }
  }

  /** The reward a live principal `live` collects over one accrual step is its pro-rata share
      of the minted reward, up to rounding: reward * totalPrincipal <= minted * live, and the
      shortfall is under one reward unit plus one accumulator unit's worth of `live`. */
  lemma {:induction false} ProRataShare(p: Pool, block: nat, live: nat)
    requires p.lastAccrualBlock <= block && p.totalPrincipal > 0
    ensures var reward := live * (Accrue(p, block).accRewardPerShare - p.accRewardPerShare) / PRECISION;
      && reward * p.totalPrincipal <= Minted(p, block) * live
      && Minted(p, block) * live * PRECISION
           < (reward + 1) * p.totalPrincipal * PRECISION + live * p.totalPrincipal
  {
    var d := Accrue(p, block).accRewardPerShare - p.accRewardPerShare;
    var t, m := p.totalPrincipal, Minted(p, block);
    AccrueBracket(p, block);
    DivBracket(live * d, PRECISION);
    ScaledShare(live * d / PRECISION, live, d, t, m, PRECISION);
    ScaledShareLower(live * d / PRECISION, live, d, t, m, PRECISION);
  }

  /** If live * d < (q + 1) * scale and m * scale < (d + 1) * t, then
      m * live * scale < (q + 1) * t * scale + live * t. */
  lemma ScaledShareLower(q: nat, live: nat, d: nat, t: nat, m: nat, scale: nat)
    requires t > 0 && live * d < (q + 1) * scale && m * scale < (d + 1) * t
    ensures m * live * scale < (q + 1) * t * scale + live * t
  {
    MulMonotone(m * scale, (d + 1) * t, live);
    MulMonotone(live * d, (q + 1) * scale, t);
    MulSwap(m, scale, live);
    MulSwap(d + 1, t, live);
    MulSwap(live, d, t);
    MulSwap(q + 1, scale, t);
    assert (d + 1) * live * t == live * d * t + live * t;
    if live > 0 {
      MulStrict(live * d, (q + 1) * scale, t);
    }
  }

  lemma MulStrict(a: int, b: int, c: nat)
    ensures a < b && c > 0 ==> a * c < b * c
  {
  }

  /** If q * scale <= live * d and d * t <= m * scale, then q * t <= m * live. */
  lemma ScaledShare(q: nat, live: nat, d: nat, t: nat, m: nat, scale: nat)
    requires scale > 0 && q * scale <= live * d && d * t <= m * scale
    ensures q * t <= m * live
  {
    MulMonotone(q * scale, live * d, t);
    MulMonotone(d * t, m * scale, live);
    MulSwap(q, t, scale);
    MulSwap(d, live, t);
    MulSwap(m, scale, live);
    MulCancel(q * t, m * live, scale);
  }

  lemma MulSwap(x: int, y: int, z: int)
    ensures (x * y) * z == (x * z) * y
  {
  }

  /** A common positive factor can be cancelled from an inequality. */
  lemma MulCancel(a: int, b: int, c: nat)
    requires c > 0 && a * c <= b * c
    ensures a <= b
  {
    if a > b {
      MulMonotone(b + 1, a, c);
      assert false;
    }
  }

  /** A sole depositor holding all of the pool's principal collects exactly the minted reward
      when the principal divides the scaled minted amount (true of every test figure). */
  lemma {:induction false} SoleDepositorShare(p: Pool, block: nat)
    requires p.lastAccrualBlock <= block && p.totalPrincipal > 0
    requires (Minted(p, block) * PRECISION) % p.totalPrincipal == 0
    ensures p.totalPrincipal * (Accrue(p, block).accRewardPerShare - p.accRewardPerShare) / PRECISION
              == Minted(p, block)
  {
    var d := Accrue(p, block).accRewardPerShare - p.accRewardPerShare;
    var t, m := p.totalPrincipal, Minted(p, block);
    if block == p.lastAccrualBlock {
      assert d == 0 && m == 0;
    } else {
      assert d == m * PRECISION / t;
      assert t * d == m * PRECISION;
      assert t * d / PRECISION == m;
    }
  }
}
