/** How long a generated Secret stays fresh: calculateDuration of controllers/vaultsecret_controller.go. */
module RefreshDuration {
  import opened Basics

  const MAX_INT64 := 0x7FFF_FFFF_FFFF_FFFF

  type Int64 = x: int | -MAX_INT64 - 1 <= x <= MAX_INT64

  datatype DefinitionStatus = DefinitionStatus(name: string, leaseDuration: Int64)  // in seconds

  /** The running minimum, which starts at the largest integer. */
  function Smallest(leases: seq<DefinitionStatus>): Int64 {
    if leases == [] then MAX_INT64
    else
      var rest, last := Smallest(leases[..|leases| - 1]), leases[|leases| - 1].leaseDuration;
      if last < rest then last else rest
  }

  lemma {:induction false} SmallestIsMinimum(leases: seq<DefinitionStatus>)
    ensures forall l <- leases :: Smallest(leases) <= l.leaseDuration
    ensures leases != [] ==> exists l <- leases :: l.leaseDuration == Smallest(leases)
  {
    if leases != [] {
      var rest, last := leases[..|leases| - 1], leases[|leases| - 1];
      SmallestIsMinimum(rest);
      assert leases == rest + [last];
      if rest == [] || last.leaseDuration < Smallest(rest) {
        assert last in leases && last.leaseDuration == Smallest(leases);
      } else {
        var l :| l in rest && l.leaseDuration == Smallest(rest);
        assert l in leases;
      }
    }
  }

  /** Go's conversion of a quotient to an integer drops the fraction. */
  function Truncated(n: int, d: int): (q: int)
    requires d > 0
    ensures n >= 0 ==> q * d <= n < q * d + d
    ensures n <= 0 ==> q * d - d < n <= q * d
  {
    if n >= 0 then n / d else -((-n) / d)
  }

  /** The threshold is the percentage of a lease after which a refresh is due. */
  function Duration(refreshPeriod: Option<int>, threshold: int, leases: seq<DefinitionStatus>): Option<int> {
    if refreshPeriod.Some? then refreshPeriod
    else if leases == [] || Smallest(leases) == MAX_INT64 then None
    else Some(Truncated(Smallest(leases) * threshold, 100) * SECOND)
  }

  method CalculateDuration(refreshPeriod: Option<int>, threshold: int, leases: seq<DefinitionStatus>)
    returns (duration: int, ok: bool)
    ensures (if ok then Some(duration) else None) == Duration(refreshPeriod, threshold, leases)
  {
    if refreshPeriod.Some? {
      return refreshPeriod.value, true;
    }
    if leases != [] {
      var smallest := MAX_INT64;
      for i := 0 to |leases|
        invariant smallest == Smallest(leases[..i])
      {
        assert leases[..i + 1][..i] == leases[..i];
        if leases[i].leaseDuration < smallest {
          smallest := leases[i].leaseDuration;
        }
      }
      assert leases[..|leases|] == leases;
      if smallest == MAX_INT64 {
        return -1, false;
      }
      return Truncated(smallest * threshold, 100) * SECOND, true;
    }
    return -1, false;
  }

  /** The duration cannot be calculated exactly when there is no refresh period and no lease that
      ends; a refresh period takes precedence over all leases. */
  lemma IncalculableIff(refreshPeriod: Option<int>, threshold: int, leases: seq<DefinitionStatus>)
    ensures Duration(refreshPeriod, threshold, leases).None? <==>
      refreshPeriod.None? && forall l <- leases :: l.leaseDuration == MAX_INT64
    ensures refreshPeriod.Some? ==> Duration(refreshPeriod, threshold, leases) == refreshPeriod
  {
    SmallestIsMinimum(leases);
  }

  /** By lease, the duration is the threshold's share of the shortest lease, short of it by less than a second. */
  lemma DurationIsShareOfShortest(threshold: nat, leases: seq<DefinitionStatus>)
    requires leases != [] && forall l <- leases :: 0 <= l.leaseDuration
    ensures var d := Duration(None, threshold, leases);
      d.Some? ==> exists l <- leases ::
        && (forall other <- leases :: l.leaseDuration <= other.leaseDuration)
        && 100 * d.value <= l.leaseDuration * threshold * SECOND < 100 * (d.value + SECOND)
  {
    SmallestIsMinimum(leases);
    var l :| l in leases && l.leaseDuration == Smallest(leases);
    var scaled := l.leaseDuration * threshold;
    assert scaled >= 0;
    var q := Truncated(scaled, 100);
    assert q * 100 <= scaled < q * 100 + 100;
    assert 100 * (q * SECOND) <= scaled * SECOND < 100 * (q * SECOND + SECOND);
  }

  /** Leases are not negative, and a refresh that is due by lease comes before every lease ends. */
  predicate MeetsLeases(threshold: int, leases: seq<DefinitionStatus>) {
    var d := Duration(None, threshold, leases);
    d.Some? && (forall l <- leases :: l.leaseDuration >= 0) ==>
      forall l <- leases :: d.value <= l.leaseDuration * SECOND
  }

  lemma ScaledIsWithin(lease: nat, threshold: int)
    requires threshold <= 100
    ensures Truncated(lease * threshold, 100) <= lease
    ensures threshold >= 0 ==> Truncated(lease * threshold, 100) >= 0
  {
    assert lease * threshold <= lease * 100;
    if threshold >= 0 {
      assert lease * threshold >= 0;
    }
  }

  lemma WithinThresholdMeetsLeases(threshold: int, leases: seq<DefinitionStatus>)
    requires threshold <= 100
    ensures MeetsLeases(threshold, leases)
  {
    SmallestIsMinimum(leases);
    if leases != [] && Smallest(leases) >= 0 {
      ScaledIsWithin(Smallest(leases), threshold);
    }
  }

  /** The refresh comes in time for every lease of every list exactly if the threshold is at most 100%. */
  lemma ThresholdIsSafeIff(threshold: int)
    ensures (forall leases :: MeetsLeases(threshold, leases)) <==> threshold <= 100
  {
    if threshold <= 100 {
      forall leases
        ensures MeetsLeases(threshold, leases)
      {
        WithinThresholdMeetsLeases(threshold, leases);
      }
    } else {
      var d := DefinitionStatus("", 100);
      SmallestIsMinimum([d]);
      assert d in [d];
      assert Smallest([d]) == 100;
      assert !MeetsLeases(threshold, [d]);
    }
  }
}
