/** Sums over every (user, pool) position: the bookkeeping that ties a pool's
    `totalPrincipal` to the entries of all of its depositors. */
module PoolTotals {
  import opened Ledger

  type Key = (Address, nat)

  /** Positions whose entries have not over-withdrawn. */
  ghost predicate WellFormed(m: map<Key, seq<Entry>>)
  {
    forall k :: k in m ==> forall i :: 0 <= i < |m[k]| ==> m[k][i].withdrawn <= m[k][i].principal
  }

  /** What position `k` contributes to pool `pid`. */
  ghost function Share(k: Key, es: seq<Entry>, pid: nat): nat
  {
    if k.1 == pid && (forall i :: 0 <= i < |es| ==> es[i].withdrawn <= es[i].principal)
    then CurrentStaked(es) else 0
  }

  /** Live principal of every user in pool `pid`. */
  ghost function PoolStaked(m: map<Key, seq<Entry>>, pid: nat): nat
    decreases |m|
  {
    if m == map[] then 0
    else
      var k :| k in m;
      Share(k, m[k], pid) + PoolStaked(m - {k}, pid)
  }

  /** The sum does not depend on which key is taken first. */
  lemma {:induction false} PoolStakedRemove(m: map<Key, seq<Entry>>, k: Key, pid: nat)
    requires k in m
    ensures PoolStaked(m, pid) == Share(k, m[k], pid) + PoolStaked(m - {k}, pid)
    decreases |m|
  {
    var k' :| k' in m && PoolStaked(m, pid) == Share(k', m[k'], pid) + PoolStaked(m - {k'}, pid);
    if k' != k {
      PoolStakedRemove(m - {k'}, k, pid);
      PoolStakedRemove(m - {k}, k', pid);
      assert m - {k'} - {k} == m - {k} - {k'};
    }
  }

  /** Replacing one position changes the pool's sum by the change of that position's share. */
  lemma PoolStakedUpdate(m: map<Key, seq<Entry>>, k: Key, es: seq<Entry>, pid: nat)
    ensures PoolStaked(m[k := es], pid) + (if k in m then Share(k, m[k], pid) else 0)
              == PoolStaked(m, pid) + Share(k, es, pid)
  {
    PoolStakedRemove(m[k := es], k, pid);
    if k in m {
      PoolStakedRemove(m, k, pid);
      assert m[k := es] - {k} == m - {k};
    } else {
      assert m[k := es] - {k} == m;
    }
  }

  /** A pool no position refers to has nothing staked. */
  lemma {:induction false} PoolStakedUnused(m: map<Key, seq<Entry>>, pid: nat)
    requires forall k :: k in m ==> k.1 != pid
    ensures PoolStaked(m, pid) == 0
    decreases |m|
  {
    if m != map[] {
      var k :| k in m;
      PoolStakedRemove(m, k, pid);
      PoolStakedUnused(m - {k}, pid);
    }
  }

  /** One position's live principal is part of its pool's sum. */
  lemma PositionWithinPool(m: map<Key, seq<Entry>>, k: Key)
    requires k in m && WellFormed(m)
    ensures CurrentStaked(m[k]) <= PoolStaked(m, k.1)
  {
    PoolStakedRemove(m, k, k.1);
  }
}
