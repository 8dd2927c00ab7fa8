/** The lock schedule: a lock tier is a number of weeks, and each tier carries a reward
    factor scaled by 100 (100 is the neutral 1.0x weighting). */
module LockSchedule {

  /** Seconds in one week: the lock duration of tier 1. */
  const WEEK: nat := 7 * 24 * 60 * 60

  /** The wall-clock time an entry of tier `weeks` stays locked. */
  function LockDuration(weeks: nat): nat
  {
    weeks * WEEK
  }

  /** The factor of a tier; a tier missing from the table reads as 0, as an unset
      storage slot does. */
  function FactorOf(table: map<nat, nat>, tier: nat): nat
  {
    if tier in table then table[tier] else 0
  }

  /** The table after writing the pairs (weeks[i], factors[i]) in order of i. */
  function ApplyFactors(table: map<nat, nat>, weeks: seq<nat>, factors: seq<nat>): map<nat, nat>
    requires |weeks| == |factors|
    decreases |weeks|
  {
    if weeks == [] then table
    else
      var n := |weeks| - 1;
      ApplyFactors(table, weeks[..n], factors[..n])[weeks[n] := factors[n]]
  }

  /** Writing the pairs adds exactly the listed tiers, gives each listed tier the factor of
      its LAST pair, and leaves every other tier as it was. */
  lemma {:induction false} ApplyFactorsLookup(table: map<nat, nat>, weeks: seq<nat>, factors: seq<nat>)
    requires |weeks| == |factors|
    ensures ApplyFactors(table, weeks, factors).Keys == table.Keys + (set w | w in weeks)
    ensures forall j :: 0 <= j < |weeks| && (forall k :: j < k < |weeks| ==> weeks[k] != weeks[j]) ==>
              ApplyFactors(table, weeks, factors)[weeks[j]] == factors[j]
    ensures forall t :: t in table && t !in weeks ==> ApplyFactors(table, weeks, factors)[t] == table[t]
    decreases |weeks|
  {
    if weeks != [] {
      var n := |weeks| - 1;
      var w, f := weeks[..n], factors[..n];
      ApplyFactorsLookup(table, w, f);
      assert weeks == w + [weeks[n]];
      forall j | 0 <= j < |weeks| && (forall k :: j < k < |weeks| ==> weeks[k] != weeks[j])
        ensures ApplyFactors(table, weeks, factors)[weeks[j]] == factors[j]
      {
        if j < n {
          assert weeks[n] != weeks[j];
          assert forall k :: j < k < |w| ==> w[k] != w[j];
        }
      }
    }
  }
}
