/**
 * `createDateResolver`: given the instants of a list of change records
 * (FM numbers, tax ids, VAT-rate changes or RAM resets) in list order, the
 * resolver maps the instant of a Z report to the change counter stored in
 * it.
 */
module DateResolver {
  import opened Wrappers

  /** A record counts at Z instant `z` when its own instant is known and not later. */
  predicate Eligible(t: Option<int>, z: int)
  {
    t.Some? && t.value <= z
  }

  /** The list index of the last record that counts at `z` (the last of `eligible`). */
  function LastEligible(times: seq<Option<int>>, z: int): (k: Option<nat>)
    ensures k.Some? ==> k.value < |times| && Eligible(times[k.value], z)
    ensures k.Some? ==> forall j | k.value < j < |times| :: !Eligible(times[j], z)
    ensures k.None? ==> forall j | 0 <= j < |times| :: !Eligible(times[j], z)
  {
    if times == [] then None
    else if Eligible(times[|times| - 1], z) then Some(|times| - 1)
    else LastEligible(times[..|times| - 1], z)
  }

  /**
   * The resolver of `times` applied to the instant `zTime` (`None` for a
   * missing or unparseable date): 0 for an empty list; the last index (plus
   * one when `oneBased`) when the Z instant is unknown or no record counts
   * at it; otherwise the index of the last record that counts (plus one).
   */
  function Resolve(times: seq<Option<int>>, zTime: Option<int>, oneBased: bool): (n: nat)
    ensures times == [] ==> n == 0
    ensures times != [] && (zTime.None? || forall j | 0 <= j < |times| :: !Eligible(times[j], zTime.value)) ==>
      n == if oneBased then |times| else |times| - 1
    ensures times != [] && zTime.Some? && (exists j | 0 <= j < |times| :: Eligible(times[j], zTime.value)) ==>
      var k := if oneBased then n - 1 else n;
      0 <= k < |times| && Eligible(times[k], zTime.value)
      && forall j | k < j < |times| :: !Eligible(times[j], zTime.value)
  {
    if times == [] then 0 else
      var lastIndex := |times| - 1;
      var fallback := if oneBased then lastIndex + 1 else lastIndex;
      if zTime.None? then fallback else
        match LastEligible(times, zTime.value)
        case None => fallback
        case Some(k) => if oneBased then k + 1 else k
  }

  /** How many records count at `z`. */
  function CountEligible(times: seq<Option<int>>, z: int): (c: nat)
    ensures c <= |times|
  {
    if times == [] then 0
    else CountEligible(times[..|times| - 1], z) + (if Eligible(times[|times| - 1], z) then 1 else 0)
  }

  /** Every instant is known and the list is in chronological order. */
  predicate Chronological(times: seq<Option<int>>)
  {
    && (forall j | 0 <= j < |times| :: times[j].Some?)
    && (forall i, j | 0 <= i < j < |times| :: times[i].value <= times[j].value)
  }

  /** When exactly the first `m` records count, `m` records count. */
  lemma {:induction false} CountPrefix(times: seq<Option<int>>, z: int, m: nat)
    requires m <= |times|
    requires forall j | 0 <= j < m :: Eligible(times[j], z)
    requires forall j | m <= j < |times| :: !Eligible(times[j], z)
    ensures CountEligible(times, z) == m
  {
    if |times| > 0 {
      var front := times[..|times| - 1];
      if m == |times| {
        CountPrefix(front, z, m - 1);
      } else {
        CountPrefix(front, z, m);
      }
    }
  }

  /**
   * For a chronological list, a one-based resolver returns the number of
   * changes made up to the Z instant, as long as at least one was.
   */
  lemma ResolveCountsChanges(times: seq<Option<int>>, z: int)
    requires Chronological(times)
    requires exists j | 0 <= j < |times| :: Eligible(times[j], z)
    ensures Resolve(times, Some(z), true) == CountEligible(times, z)
  {
    var n := Resolve(times, Some(z), true);
    forall j | 0 <= j < n
      ensures Eligible(times[j], z)
    {
      assert times[j].value <= times[n - 1].value;
    }
    CountPrefix(times, z, n);
  }
}
